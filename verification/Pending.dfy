/** One-shot waiters for responses (spored/internal/utilities/await/await.go). */
module Pending {
  import opened Wrappers

  /** A response, or the signal sent when a waiter is resolved without one. */
  datatype Message = Response(handle: string, text: string) | Signal(handle: string)

  /** A channel of capacity one: what is in it, and all that was ever sent on it. */
  datatype Channel = Channel(handle: string, buffer: seq<Message>, sent: seq<Message>)

  /** `channels` maps a handle to the number of its channel in `made`; `stuck`: a send blocked under the lock. */
  datatype State = State(channels: map<string, nat>, made: seq<Channel>, stuck: bool)

  const NOTHING := State(map[], [], false)

  /** The steps of callers and waiters, in any order. */
  datatype Step =
    | Await(handle: string)
    | Delete(handle: string)
    | Receive(msg: Message)
    | Resolve(handle: string)
    | Take(channel: nat)                    // a waiter receives from its channel
    | TimeOut(handle: string, channel: nat) // a waiter gives up

  function Send(s: State, c: nat, msg: Message): State
    requires c < |s.made|
  {
    var ch := s.made[c];
    if |ch.buffer| >= 1 then s.(stuck := true)
    else s.(made := s.made[c := Channel(ch.handle, ch.buffer + [msg], ch.sent + [msg])])
  }

  /** The registered channel leaves the map and gets the message; without one the message is dropped. */
  function Deliver(s: State, msg: Message): State {
    if msg.handle in s.channels && s.channels[msg.handle] < |s.made| then
      Send(s.(channels := s.channels - {msg.handle}), s.channels[msg.handle], msg)
    else s
  }

  function Do(s: State, step: Step): State {
    if s.stuck then s
    else
      match step
      case Await(handle) =>
        s.(channels := s.channels[handle := |s.made|], made := s.made + [Channel(handle, [], [])])
      case Delete(handle) => s.(channels := s.channels - {handle})
      case Receive(msg) => Deliver(s, msg)
      case Resolve(handle) => Deliver(s, Signal(handle))
      case Take(c) =>
        if c < |s.made| && s.made[c].buffer != [] then
          s.(made := s.made[c := s.made[c].(buffer := s.made[c].buffer[1..])])
        else s
      case TimeOut(handle, _) => s.(channels := s.channels - {handle})
  }

  /** What a wait limit comes to: zero waits for ever. */
  function Limit(timeout: int, override: Option<int>): int {
    match override
    case None => timeout
    case Some(t) => t
  }

  /** Registered channels exist, are their handle's own, and were never sent anything. */
  ghost predicate Registered(s: State) {
    forall h :: h in s.channels ==>
      s.channels[h] < |s.made| && s.made[s.channels[h]] == Channel(h, [], [])
  }

  /** A channel was sent at most one message, one for its own handle, and holds it until taken. */
  predicate OneShot(c: Channel) {
    && |c.sent| <= 1
    && (c.buffer == [] || c.buffer == c.sent)
    && (c.sent != [] ==> c.sent[0].handle == c.handle)
  }

  ghost predicate Valid(s: State) {
    !s.stuck && Registered(s) && forall i :: 0 <= i < |s.made| ==> OneShot(s.made[i])
  }

  /** The waiters' table; each method is one locked section. */
  class Pending {
    var timeout: int
    var channels: map<string, nat>
    var made: seq<Channel>

    function Value(): State
      reads this
    {
      State(channels, made, false)
    }

    constructor ()
      ensures Value() == NOTHING && timeout == 0
    {
      timeout, channels, made := 0, map[], [];
    }

    method WithTimeout(timeout: int)
      modifies this`timeout
      ensures this.timeout == timeout
    {
      this.timeout := timeout;
    }

    method Await(handle: string) returns (ch: nat)
      modifies this`channels, this`made
      ensures ch == |old(made)| && Value() == Do(old(Value()), Step.Await(handle))
    {
      ch := |made|;
      made := made + [Channel(handle, [], [])];
      channels := channels[handle := ch];
    }

    method Delete(handle: string)
      modifies this`channels
      ensures Value() == Do(old(Value()), Step.Delete(handle))
    {
      channels := channels - {handle};
    }

    /** The send under the lock: it must find room at once, or the lock is never given back. */
    method Put(ch: nat, msg: Message)
      requires ch < |made| && |made[ch].buffer| < 1
      modifies this`made
      ensures Value() == Send(old(Value()), ch, msg)
    {
      var c := made[ch];
      made := made[ch := Channel(c.handle, c.buffer + [msg], c.sent + [msg])];
    }

    method Receive(msg: Message) returns (dropped: bool)
      requires Valid(Value())
      modifies this`channels, this`made
      ensures Valid(Value()) && Value() == Do(old(Value()), Step.Receive(msg))
      ensures dropped <==> msg.handle !in old(channels)
    {
      StepValid(Value(), Step.Receive(msg));
      if msg.handle !in channels {
        return true;
      }
      var ch := channels[msg.handle];
      channels := channels - {msg.handle};
      Put(ch, msg);
      return false;
    }

    method Resolve(handle: string)
      requires Valid(Value())
      modifies this`channels, this`made
      ensures Valid(Value()) && Value() == Do(old(Value()), Step.Resolve(handle))
    {
      StepValid(Value(), Step.Resolve(handle));
      if handle in channels {
        var ch := channels[handle];
        channels := channels - {handle};
        Put(ch, Signal(handle));
      }
    }

    method Has(handle: string) returns (ok: bool)
      ensures ok <==> handle in Value().channels
    {
      return handle in channels;
    }

    /**
     The end of a wait: a message is there, or, `elapsed`, the limit has passed first.
     Without a limit only a message ends it.
     */
    method WaitForTimeout(handle: string, ch: nat, override: Option<int>, elapsed: bool) returns (msg: Option<Message>)
      requires ch < |made|
      requires if elapsed then Limit(timeout, override) > 0 else made[ch].buffer != []
      modifies this`channels, this`made
      ensures Value() == Do(old(Value()), if elapsed then TimeOut(handle, ch) else Take(ch))
      ensures msg == if elapsed then None else Some(old(made)[ch].buffer[0])
    {
      if elapsed {
        channels := channels - {handle};
        return None;
      }
      msg := Some(made[ch].buffer[0]);
      made := made[ch := made[ch].(buffer := made[ch].buffer[1..])];
    }
  }

  /** No step breaks the invariant; in particular the send under the lock always finds room. */
  lemma StepValid(s: State, step: Step)
    requires Valid(s)
    ensures Valid(Do(s, step))
  {
    match step {
      case Await(h) => assert forall i :: 0 <= i < |s.made| ==> Do(s, step).made[i] == s.made[i];
      case Delete(_) =>
      case Receive(msg) => DeliverValid(s, msg);
      case Resolve(h) => DeliverValid(s, Signal(h));
      case Take(c) => TakeValid(s, c);
      case TimeOut(_, _) =>
    }
  }

  lemma DeliverValid(s: State, msg: Message)
    requires Valid(s)
    ensures Valid(Deliver(s, msg))
  {
  }

  lemma TakeValid(s: State, c: nat)
    requires Valid(s)
    ensures Valid(Do(s, Take(c)))
  {
  }
}
