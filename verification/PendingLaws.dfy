/** Waiters over every interleaving of their callers' steps. */
module PendingLaws {
  import opened Pending

  function After(steps: seq<Step>): State {
    if steps == [] then NOTHING else Do(After(steps[..|steps| - 1]), steps[|steps| - 1])
  }

  /**
   In every interleaving, reused handles included: no send blocks under the lock, each
   channel is sent at most one message, and only one for the handle it was made for.
   */
  lemma {:induction false} RunValid(steps: seq<Step>)
    ensures Valid(After(steps))
    decreases |steps|
  {
    if steps != [] {
      RunValid(steps[..|steps| - 1]);
      StepValid(After(steps[..|steps| - 1]), steps[|steps| - 1]);
    }
  }

  /** Two handles never share a channel, and what a handle is registered with is empty. */
  lemma RegisteredApart(steps: seq<Step>, h: string, g: string)
    requires h in After(steps).channels && g in After(steps).channels
    ensures var s := After(steps);
            && s.channels[h] < |s.made| && s.made[s.channels[h]] == Channel(h, [], [])
            && (s.channels[h] == s.channels[g] ==> h == g)
  {
    RunValid(steps);
  }

  /** A message that is not dropped is in its handle's channel afterwards, and no other channel changes. */
  lemma ReceiveReaches(steps: seq<Step>, msg: Message)
    requires msg.handle in After(steps).channels
    ensures var s, t := After(steps), After(steps + [Receive(msg)]);
            var c := s.channels[msg.handle];
            && c < |s.made| == |t.made|
            && t.made[c] == Channel(msg.handle, [msg], [msg])
            && t.channels == s.channels - {msg.handle}
            && forall i :: 0 <= i < |s.made| && i != c ==> t.made[i] == s.made[i]
  {
    RunValid(steps);
    assert (steps + [Receive(msg)])[..|steps|] == steps;
    var s := After(steps);
    assert s.made[s.channels[msg.handle]] == Channel(msg.handle, [], []);
    assert [] + [msg] == [msg];
  }

  /** A waiter that is resolved gets the signal, in its handle's channel alone. */
  lemma ResolveReaches(steps: seq<Step>, handle: string)
    requires handle in After(steps).channels
    ensures var s, t := After(steps), After(steps + [Resolve(handle)]);
            var c := s.channels[handle];
            && c < |s.made| == |t.made|
            && t.made[c] == Channel(handle, [Signal(handle)], [Signal(handle)])
            && t.channels == s.channels - {handle}
            && forall i :: 0 <= i < |s.made| && i != c ==> t.made[i] == s.made[i]
  {
    RunValid(steps);
    assert (steps + [Resolve(handle)])[..|steps|] == steps;
    var s := After(steps);
    assert s.made[s.channels[handle]] == Channel(handle, [], []);
    assert [] + [Signal(handle)] == [Signal(handle)];
  }

  /** What a waiter takes is gone from its channel, so a message is taken once; nothing else changes. */
  lemma TakenOnce(steps: seq<Step>, c: nat)
    requires c < |After(steps).made|
    ensures var s, t := After(steps), After(steps + [Take(c)]);
            && t == s.(made := s.made[c := Channel(s.made[c].handle, [], s.made[c].sent)])
            && After(steps + [Take(c)] + [Take(c)]) == t
  {
    RunValid(steps);
    var once := steps + [Take(c)];
    assert once[..|steps|] == steps && (once + [Take(c)])[..|once|] == once;
    var s := After(steps);
    assert OneShot(s.made[c]);
    if s.made[c].buffer == [] {
      assert s.made[c := s.made[c]] == s.made;
    } else {
      assert s.made[c].buffer[1..] == [];
    }
  }

  /** Step `i` waits for the handle on a new channel, number `c`. */
  ghost predicate Makes(steps: seq<Step>, i: int, handle: string, c: int) {
    0 <= i < |steps| && steps[i] == Await(handle) && c == |After(steps[..i]).made|
  }

  ghost predicate DistinctHandles(steps: seq<Step>) {
    forall i, j :: 0 <= i < j < |steps| && steps[i].Await? && steps[j].Await? ==> steps[i].handle != steps[j].handle
  }

  /** Every channel made so far comes from a wait for its handle. */
  ghost predicate FromAwaits(steps: seq<Step>, made: seq<Channel>) {
    forall c :: 0 <= c < |made| ==> WasMade(steps, made[c].handle, c)
  }

  ghost predicate WasMade(steps: seq<Step>, handle: string, c: int) {
    exists i :: Makes(steps, i, handle, c)
  }

  lemma {:induction false} MadeByAwaits(steps: seq<Step>)
    ensures FromAwaits(steps, After(steps).made)
    decreases |steps|
  {
    if steps != [] {
      var n := |steps| - 1;
      var before := steps[..n];
      MadeByAwaits(before);
      RunValid(before);
      var s := After(before);
      var made := Do(s, steps[n]).made;
      StepKeepsHandles(s, steps[n]);
      forall c | 0 <= c < |made|
        ensures WasMade(steps, made[c].handle, c)
      {
        if c < |s.made| {
          assert WasMade(before, s.made[c].handle, c);
          var i :| Makes(before, i, s.made[c].handle, c);
          assert before[..i] == steps[..i];
          assert Makes(steps, i, made[c].handle, c);
        } else {
          assert Makes(steps, n, made[c].handle, c);
        }
      }
    }
  }

  lemma StepKeepsHandles(s: State, step: Step)
    requires Valid(s)
    ensures var t := Do(s, step);
            && |t.made| == |s.made| + (if step.Await? then 1 else 0)
            && (forall c :: 0 <= c < |s.made| ==> t.made[c].handle == s.made[c].handle)
            && (step.Await? ==> t.made[|s.made|].handle == step.handle)
  {
  }

  /** With distinct handles a handle has one channel. */
  lemma OneChannel(steps: seq<Step>, c: nat, d: nat)
    requires DistinctHandles(steps) && c < |After(steps).made| && d < |After(steps).made|
    requires After(steps).made[c].handle == After(steps).made[d].handle
    ensures c == d
  {
    MadeByAwaits(steps);
    var h := After(steps).made[c].handle;
    assert WasMade(steps, h, c) && WasMade(steps, h, d);
    var i :| Makes(steps, i, h, c);
    var j :| Makes(steps, j, h, d);
    assert i == j;
  }

  /**
   With distinct handles a waiter that times out takes away its own registration only;
   every other waiter's stays as it is.
   */
  lemma TimeOutTakesOwn(steps: seq<Step>, handle: string, c: nat)
    requires DistinctHandles(steps)
    requires c < |After(steps).made| && After(steps).made[c].handle == handle
    ensures var s, t := After(steps), After(steps + [TimeOut(handle, c)]);
            && t.made == s.made
            && forall h :: h in s.channels && s.channels[h] != c ==> h in t.channels && t.channels[h] == s.channels[h]
  {
    RunValid(steps);
    assert (steps + [TimeOut(handle, c)])[..|steps|] == steps;
    var s := After(steps);
    if handle in s.channels {
      OneChannel(steps, s.channels[handle], c);
    }
  }

  // Who is registered, from the steps alone.

  /** The step registers or unregisters the handle. */
  predicate Touches(step: Step, handle: string) {
    match step
    case Await(h) => h == handle
    case Delete(h) => h == handle
    case Receive(msg) => msg.handle == handle
    case Resolve(h) => h == handle
    case Take(_) => false
    case TimeOut(h, _) => h == handle
  }

  /** Step `j` waits for the handle on channel `d`, and nothing registered, answered or dropped the handle since. */
  ghost predicate Waiting(steps: seq<Step>, j: int, handle: string, d: int) {
    Makes(steps, j, handle, d) && forall k :: j < k < |steps| ==> !Touches(steps[k], handle)
  }

  lemma MakesBefore(steps: seq<Step>, n: nat, j: int, handle: string, d: int)
    requires j < n <= |steps|
    ensures Makes(steps[..n], j, handle, d) <==> Makes(steps, j, handle, d)
  {
    if 0 <= j {
      assert steps[..n][..j] == steps[..j];
    }
  }

  lemma WaitingSnoc(steps: seq<Step>, j: int, handle: string, d: int)
    requires steps != []
    ensures var n := |steps| - 1;
            Waiting(steps, j, handle, d) <==>
            if steps[n] == Await(handle) then j == n && d == |After(steps[..n]).made|
            else !Touches(steps[n], handle) && Waiting(steps[..n], j, handle, d)
  {
    var n := |steps| - 1;
    if 0 <= j < n {
      MakesBefore(steps, n, j, handle, d);
      assert forall k :: j < k < n ==> steps[..n][k] == steps[k];
    }
  }

  /** What one step does to the registration of a handle. */
  lemma StepRegisters(s: State, step: Step, handle: string)
    requires Valid(s)
    ensures var t := Do(s, step).channels;
            if step == Await(handle) then handle in t && t[handle] == |s.made|
            else if Touches(step, handle) then handle !in t
            else (handle in t <==> handle in s.channels) && (handle in t ==> t[handle] == s.channels[handle])
  {
  }

  /** A handle is registered exactly while a step waits for it, and then with the channel that step made. */
  lemma {:induction false} RegisteredWhileWaiting(steps: seq<Step>, handle: string)
    ensures handle in After(steps).channels <==> exists j, d :: Waiting(steps, j, handle, d)
    ensures forall j, d :: Waiting(steps, j, handle, d) ==>
              handle in After(steps).channels && After(steps).channels[handle] == d
    decreases |steps|
  {
    if steps != [] {
      var n := |steps| - 1;
      var before := steps[..n];
      RegisteredWhileWaiting(before, handle);
      RunValid(before);
      StepRegisters(After(before), steps[n], handle);
      forall j, d
        ensures Waiting(steps, j, handle, d) <==>
                if steps[n] == Await(handle) then j == n && d == |After(before).made|
                else !Touches(steps[n], handle) && Waiting(before, j, handle, d)
      {
        WaitingSnoc(steps, j, handle, d);
      }
      if steps[n] == Await(handle) {
        assert Waiting(steps, n, handle, |After(before).made|);
      } else if !Touches(steps[n], handle) && handle in After(before).channels {
        var j, d :| Waiting(before, j, handle, d);
        assert Waiting(steps, j, handle, d);
      }
    }
  }

  /**
   In general a waiter that times out spares every other registration exactly when no
   other channel is waiting for its handle: one made by a later wait for the same handle
   which was not answered, dropped or timed out since.
   */
  lemma TimeOutTakesAnother(steps: seq<Step>, handle: string, c: nat)
    ensures var s, t := After(steps), After(steps + [TimeOut(handle, c)]);
            (forall h :: h in s.channels && s.channels[h] != c ==> h in t.channels && t.channels[h] == s.channels[h]) <==>
            (forall j, d :: Waiting(steps, j, handle, d) ==> d == c)
  {
    RunValid(steps);
    RegisteredWhileWaiting(steps, handle);
    assert (steps + [TimeOut(handle, c)])[..|steps|] == steps;
    var s, t := After(steps), After(steps + [TimeOut(handle, c)]);
    assert t.channels == s.channels - {handle};
    if handle in s.channels {
      var j, d :| Waiting(steps, j, handle, d);
      assert s.channels[handle] == d;
    }
  }

  /** A reused handle: the first waiter's timeout unregisters the second, whose message is then dropped. */
  lemma ReusedHandleLosesMessage(handle: string, text: string)
    ensures var s := After([Await(handle)] + [Await(handle)] + [TimeOut(handle, 0)] + [Receive(Response(handle, text))]);
            s.channels == map[] && s.made == [Channel(handle, [], []), Channel(handle, [], [])]
  {
    var s1 := [Await(handle)];
    var s2 := s1 + [Await(handle)];
    var s3 := s2 + [TimeOut(handle, 0)];
    var s4 := s3 + [Receive(Response(handle, text))];
    assert s1[..0] == [] && s2[..1] == s1 && s3[..2] == s2 && s4[..3] == s3;
    assert After(s1) == State(map[handle := 0], [Channel(handle, [], [])], false);
    assert After(s2) == State(map[handle := 1], [Channel(handle, [], []), Channel(handle, [], [])], false);
    assert After(s3).channels == map[];
    assert After(s4) == After(s3);
  }
}
