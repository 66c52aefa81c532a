/** Publishing to the subscribers of a topic (spored/internal/bus/broadcast.go). */
module Broadcast {
  import opened Abbreviations
  import opened Lists
  import opened Manifests
  import opened Api

  datatype State = State(nodes: set<string>, topics: Index, subscriptions: map<string, seq<string>>) {

    function Subscribers(fqname: string): seq<string> {
      if fqname in subscriptions then subscriptions[fqname] else []
    }
  }

  const SILENCE := State({}, EMPTY, map[])

  datatype Op =
    | Register(node: Node)
    | Unregister(node: Node)
    | Subscribe(cast: string, topic: string)
    | Unsubscribe(cast: string, topic: string)

  datatype Told = Done | TopicAmbiguous(candidates: seq<string>) | TopicMissing

  function WithTopics(idx: Index, names: seq<string>): Index {
    if names == [] then idx else WithTopics(idx, names[..|names| - 1]).Add(names[|names| - 1])
  }

  function WithoutTopics(idx: Index, names: seq<string>): Index {
    if names == [] then idx else WithoutTopics(idx, names[..|names| - 1]).Remove(names[|names| - 1])
  }

  function Resolved(s: State, topic: string): Told {
    match s.topics.Resolve(topic)
    case Found(_) => Done
    case Ambiguous(candidates) => if candidates == [] then TopicMissing else TopicAmbiguous(candidates)
    case Missing => TopicMissing
  }

  function Do(s: State, op: Op): (State, Told) {
    match op
    case Register(n) => (s.(nodes := s.nodes + {n.id}, topics := WithTopics(s.topics, n.Topics())), Done)
    case Unregister(n) => (s.(nodes := s.nodes - {n.id}, topics := WithoutTopics(s.topics, n.Topics())), Done)
    case Subscribe(cast, topic) =>
      var r := s.topics.Resolve(topic);
      if !r.Found? then (s, Resolved(s, topic))
      else (s.(subscriptions := s.subscriptions[r.fqname := s.Subscribers(r.fqname) + [cast]]), Done)
    case Unsubscribe(cast, topic) =>
      var r := s.topics.Resolve(topic);
      if !r.Found? then (s, Resolved(s, topic))
      else if cast !in s.Subscribers(r.fqname) then (s, Done)
      else (s.(subscriptions := s.subscriptions[r.fqname := WithoutFirst(s.Subscribers(r.fqname), cast)]), Done)
  }

  /** The subscribers that are registered, in order of subscription. */
  function Targets(subscribers: seq<string>, nodes: set<string>): seq<string> {
    if subscribers == [] then []
    else
      var last := subscribers[|subscribers| - 1];
      Targets(subscribers[..|subscribers| - 1], nodes) + if last in nodes then [last] else []
  }

  /** Who receives a message published on `topic`, and what the publisher is told. */
  function Published(s: State, topic: string): (seq<string>, Told) {
    match s.topics.Resolve(topic)
    case Found(fqname) => (Targets(s.Subscribers(fqname), s.nodes), Done)
    case Ambiguous(candidates) => ([], if candidates == [] then Done else TopicAmbiguous(candidates))
    case Missing => ([], Done)
  }

  class Broadcast {
    var nodes: set<string>
    const topics: AbbreviationIndex
    var subscriptions: map<string, seq<string>>

    function Value(): State
      reads this, topics
    {
      State(nodes, topics.Value(), subscriptions)
    }

    constructor ()
      ensures Value() == SILENCE && fresh(topics)
    {
      nodes, subscriptions := {}, map[];
      topics := new AbbreviationIndex();
    }

    method Register(n: Node)
      modifies this, topics
      ensures Value() == Do(old(Value()), Op.Register(n)).0
    {
      nodes := nodes + {n.id};
      ghost var before := topics.Value();
      if n.manifest.Some? {
        var announced := n.manifest.value.topics;
        ghost var names := FqTopics(n.id, announced);
        for i := 0 to |announced|
          invariant topics.Value() == WithTopics(before, names[..i])
          invariant nodes == old(nodes) + {n.id} && subscriptions == old(subscriptions)
        {
          assert names[..i + 1][..i] == names[..i];
          topics.Add(n.id + "." + announced[i].name);
        }
        assert names[..|announced|] == names;
      }
    }

    method Unregister(n: Node)
      modifies this, topics
      ensures Value() == Do(old(Value()), Op.Unregister(n)).0
    {
      nodes := nodes - {n.id};
      ghost var before := topics.Value();
      if n.manifest.Some? {
        var announced := n.manifest.value.topics;
        ghost var names := FqTopics(n.id, announced);
        for i := 0 to |announced|
          invariant topics.Value() == WithoutTopics(before, names[..i])
          invariant nodes == old(nodes) - {n.id} && subscriptions == old(subscriptions)
        {
          assert names[..i + 1][..i] == names[..i];
          topics.Remove(n.id + "." + announced[i].name);
        }
        assert names[..|announced|] == names;
      }
    }

    method Subscribe(cast: string, topic: string) returns (r: Told)
      modifies this
      ensures (Value(), r) == Do(old(Value()), Op.Subscribe(cast, topic))
    {
      var found := topics.Resolve(topic);
      if !found.Found? {
        return if found.Ambiguous? && found.candidates != [] then TopicAmbiguous(found.candidates) else TopicMissing;
      }
      var subscribers := if found.fqname in subscriptions then subscriptions[found.fqname] else [];
      subscriptions := subscriptions[found.fqname := subscribers + [cast]];
      return Done;
    }

    method Unsubscribe(cast: string, topic: string) returns (r: Told)
      modifies this
      ensures (Value(), r) == Do(old(Value()), Op.Unsubscribe(cast, topic))
    {
      var found := topics.Resolve(topic);
      if !found.Found? {
        return if found.Ambiguous? && found.candidates != [] then TopicAmbiguous(found.candidates) else TopicMissing;
      }
      var subscribers := if found.fqname in subscriptions then subscriptions[found.fqname] else [];
      for i := 0 to |subscribers|
        invariant Value() == old(Value()) && cast !in subscribers[..i]
      {
        if subscribers[i] == cast {
          WithoutFirstAt(subscribers, i, cast);
          subscriptions := subscriptions[found.fqname := subscribers[..i] + subscribers[i + 1..]];
          return Done;
        }
      }
      assert subscribers[..|subscribers|] == subscribers;
      return Done;
    }

    method Publish(topic: string) returns (targets: seq<string>, r: Told)
      ensures (targets, r) == Published(Value(), topic)
    {
      var found := topics.Resolve(topic);
      if !found.Found? {
        if found.Ambiguous? && |found.candidates| > 0 {
          return [], TopicAmbiguous(found.candidates);
        }
        return [], Done;
      }
      if found.fqname !in subscriptions {
        return [], Done;
      }
      var subscribers := subscriptions[found.fqname];
      targets := [];
      for i := 0 to |subscribers|
        invariant targets == Targets(subscribers[..i], nodes)
      {
        assert subscribers[..i + 1][..i] == subscribers[..i];
        if subscribers[i] in nodes {
          targets := targets + [subscribers[i]];
        }
      }
      assert subscribers[..|subscribers|] == subscribers;
      return targets, Done;
    }
  }
}
