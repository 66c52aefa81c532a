/** Who a published message reaches, from the history of subscriptions. */
module BroadcastLaws {
  import opened Names
  import opened Abbreviations
  import opened AbbreviationLaws
  import opened Lists
  import opened Manifests
  import opened Wrappers
  import opened Api
  import opened Broadcast

  /** A registered node receives a message once for each of its subscriptions, and no other node does. */
  lemma {:induction false} TargetsCount(subscribers: seq<string>, nodes: set<string>, node: string)
    ensures multiset(Targets(subscribers, nodes))[node] == if node in nodes then multiset(subscribers)[node] else 0
    decreases |subscribers|
  {
    if subscribers != [] {
      var n := |subscribers| - 1;
      TargetsCount(subscribers[..n], nodes, node);
      assert subscribers == subscribers[..n] + [subscribers[n]];
    }
  }

  function After(ops: seq<Op>): State {
    if ops == [] then SILENCE else Do(After(ops[..|ops| - 1]), ops[|ops| - 1]).0
  }

  /** What an operation changes in how often `node` is subscribed to topic `fqname`. */
  function Change(s: State, op: Op, fqname: string, node: string): int {
    if op.Subscribe? && op.cast == node && s.topics.Resolve(op.topic) == Found(fqname) then 1
    else if op.Unsubscribe? && op.cast == node && s.topics.Resolve(op.topic) == Found(fqname)
            && node in s.Subscribers(fqname) then -1
    else 0
  }

  function Subscriptions(ops: seq<Op>, fqname: string, node: string): int {
    if ops == [] then 0
    else
      var n := |ops| - 1;
      Subscriptions(ops[..n], fqname, node) + Change(After(ops[..n]), ops[n], fqname, node)
  }

  lemma SubscribeCount(s: State, op: Op, fqname: string, node: string)
    requires op.Subscribe?
    ensures multiset(Do(s, op).0.Subscribers(fqname))[node] ==
            multiset(s.Subscribers(fqname))[node] + Change(s, op, fqname, node)
  {
    var r := s.topics.Resolve(op.topic);
    if r == Found(fqname) {
      assert Do(s, op).0.Subscribers(fqname) == s.Subscribers(fqname) + [op.cast];
    } else {
      assert Do(s, op).0.Subscribers(fqname) == s.Subscribers(fqname);
    }
  }

  lemma OneTaken(xs: seq<string>, x: string, y: string)
    requires x in xs
    ensures multiset(WithoutFirst(xs, x))[y] == multiset(xs)[y] - if y == x then 1 else 0
  {
    WithoutFirstCount(xs, x);
    assert multiset(xs)[x] > 0;
  }

  lemma UnsubscribeCount(s: State, op: Op, fqname: string, node: string)
    requires op.Unsubscribe?
    ensures multiset(Do(s, op).0.Subscribers(fqname))[node] ==
            multiset(s.Subscribers(fqname))[node] + Change(s, op, fqname, node)
  {
    var r, held := s.topics.Resolve(op.topic), s.Subscribers(fqname);
    if r == Found(fqname) && op.cast in held {
      OneTaken(held, op.cast, node);
      assert Do(s, op).0.Subscribers(fqname) == WithoutFirst(held, op.cast);
    } else {
      assert Do(s, op).0.Subscribers(fqname) == held;
    }
  }

  lemma StepCount(s: State, op: Op, fqname: string, node: string)
    ensures multiset(Do(s, op).0.Subscribers(fqname))[node] ==
            multiset(s.Subscribers(fqname))[node] + Change(s, op, fqname, node)
  {
    if op.Subscribe? {
      SubscribeCount(s, op, fqname, node);
    } else if op.Unsubscribe? {
      UnsubscribeCount(s, op, fqname, node);
    } else {
      assert Do(s, op).0.subscriptions == s.subscriptions;
    }
  }

  /** Operation `i` registers the node, and none unregisters it since. */
  predicate JoinedAt(ops: seq<Op>, i: int, id: string) {
    && 0 <= i < |ops| && ops[i].Register? && ops[i].node.id == id
    && forall j :: i < j < |ops| ==> !(ops[j].Unregister? && ops[j].node.id == id)
  }

  ghost predicate Joined(ops: seq<Op>, id: string) {
    exists i :: JoinedAt(ops, i, id)
  }

  lemma JoinedSnoc(ops: seq<Op>, id: string)
    requires ops != []
    ensures var n := |ops| - 1;
            Joined(ops, id) <==> (ops[n].Register? && ops[n].node.id == id) ||
                                 (!(ops[n].Unregister? && ops[n].node.id == id) && Joined(ops[..n], id))
  {
    var n := |ops| - 1;
    var before := ops[..n];
    assert forall j :: 0 <= j < n ==> before[j] == ops[j];
    if ops[n].Register? && ops[n].node.id == id {
      assert JoinedAt(ops, n, id);
    } else if !(ops[n].Unregister? && ops[n].node.id == id) && Joined(before, id) {
      var i :| JoinedAt(before, i, id);
      assert JoinedAt(ops, i, id);
    }
    if i :| JoinedAt(ops, i, id) && i < n {
      assert JoinedAt(before, i, id);
    }
  }

  lemma {:induction false} NodesJoined(ops: seq<Op>, id: string)
    ensures id in After(ops).nodes <==> Joined(ops, id)
    decreases |ops|
  {
    if ops != [] {
      NodesJoined(ops[..|ops| - 1], id);
      JoinedSnoc(ops, id);
    }
  }

  /**
   After any run a published message reaches a node as often as it subscribed to the topic
   and did not unsubscribe, if it registered and did not unregister since; no other node.
   */
  lemma {:induction false} ReceivedPerSubscription(ops: seq<Op>, topic: string, node: string)
    ensures var s := After(ops);
            var r := s.topics.Resolve(topic);
            multiset(Published(s, topic).0)[node] ==
            if r.Found? && Joined(ops, node) then Subscriptions(ops, r.fqname, node) else 0
  {
    var s := After(ops);
    var r := s.topics.Resolve(topic);
    NodesJoined(ops, node);
    if r.Found? {
      SubscribersCount(ops, r.fqname, node);
      TargetsCount(s.Subscribers(r.fqname), s.nodes, node);
    }
  }

  lemma {:induction false} SubscribersCount(ops: seq<Op>, fqname: string, node: string)
    ensures multiset(After(ops).Subscribers(fqname))[node] == Subscriptions(ops, fqname, node)
    decreases |ops|
  {
    if ops != [] {
      var n := |ops| - 1;
      SubscribersCount(ops[..n], fqname, node);
      StepCount(After(ops[..n]), ops[n], fqname, node);
    }
  }

  /** From its first place on, the list holds nothing but `x`. */
  predicate OnlyAtEnd(xs: seq<string>, x: string) {
    xs == [] || if xs[0] == x then forall y :: y in xs ==> y == x else OnlyAtEnd(xs[1..], x)
  }

  /** Taking out the first occurrence takes back what was put at the end, if all occurrences are there. */
  lemma {:induction false} LastTakenBack(subscribers: seq<string>, cast: string)
    ensures WithoutFirst(subscribers + [cast], cast) == subscribers <==> OnlyAtEnd(subscribers, cast)
    decreases |subscribers|
  {
    if subscribers != [] {
      var rest := subscribers[1..];
      assert (subscribers + [cast])[1..] == rest + [cast];
      assert subscribers == [subscribers[0]] + rest;
      if subscribers[0] == cast {
        Shifted(subscribers, cast);
      } else {
        LastTakenBack(rest, cast);
        assert [subscribers[0]] + WithoutFirst(rest + [cast], cast) == subscribers <==>
               WithoutFirst(rest + [cast], cast) == rest by {
          assert ([subscribers[0]] + WithoutFirst(rest + [cast], cast))[1..] == WithoutFirst(rest + [cast], cast);
        }
      }
    }
  }

  lemma {:induction false} Shifted(xs: seq<string>, x: string)
    requires xs != [] && xs[0] == x
    ensures xs[1..] + [x] == xs <==> forall y :: y in xs ==> y == x
    decreases |xs|
  {
    assert xs == [xs[0]] + xs[1..];
    if forall y :: y in xs ==> y == x {
      assert forall i :: 0 <= i < |xs| ==> xs[i] in xs;
    } else if |xs| > 1 && xs[1..] + [x] == xs {
      assert xs[0] == (xs[1..] + [x])[0] == xs[1];
      assert xs[1..][1..] + [x] == (xs[1..] + [x])[1..];
      Shifted(xs[1..], x);
    }
  }

  /**
   Unsubscribing takes out the first of a node's subscriptions, so it undoes subscribing
   just when the node was not subscribed before, or had all the last places already.
   Nothing else changes.
   */
  lemma UnsubscribeUndoesSubscribe(s: State, cast: string, topic: string)
    requires s.topics.Resolve(topic).Found?
    ensures var f := s.topics.Resolve(topic).fqname;
            var t := Do(Do(s, Subscribe(cast, topic)).0, Unsubscribe(cast, topic)).0;
            && (t.Subscribers(f) == s.Subscribers(f) <==> OnlyAtEnd(s.Subscribers(f), cast))
            && t == s.(subscriptions := t.subscriptions)
            && forall g :: g != f ==> t.Subscribers(g) == s.Subscribers(g)
  {
    var f := s.topics.Resolve(topic).fqname;
    LastTakenBack(s.Subscribers(f), cast);
    var s1 := Do(s, Subscribe(cast, topic)).0;
    assert s1.Subscribers(f) == s.Subscribers(f) + [cast];
    assert Do(s1, Unsubscribe(cast, topic)).0.Subscribers(f) == WithoutFirst(s.Subscribers(f) + [cast], cast);
  }

  // Topics that do not resolve.

  /** What the hub takes for granted when a topic does not resolve: nobody is subscribed to anything it could mean. */
  ghost predicate NobodyBehind(s: State) {
    forall key, f :: s.topics.Resolve(key) == Missing && Owns(f, key) ==> s.Subscribers(f) == []
  }

  /** A topic with subscribers is covered when a name in `names` owns it. */
  ghost predicate Covered(names: set<string>, f: string) {
    exists g :: g in names && Owns(g, f)
  }

  lemma MissingHasNoOwner(idx: Index, names: set<string>, key: string)
    requires Sound(idx, names)
    ensures idx.Resolve(key) == Missing <==> !Covered(names, key)
  {
    assert SoundEntry(EntryOf(idx, key), Owners(names, key));
    HolderOwns(EntryOf(idx, key), Owners(names, key));
    if g :| g in names && Owns(g, key) {
      assert g in Owners(names, key);
    }
  }

  /** It is true exactly while every topic with subscribers is covered by an announced one. */
  lemma NobodyBehindExact(s: State, names: set<string>)
    requires Sound(s.topics, names)
    ensures NobodyBehind(s) <==> forall f :: s.Subscribers(f) != [] ==> Covered(names, f)
  {
    if NobodyBehind(s) {
      forall f | s.Subscribers(f) != []
        ensures Covered(names, f)
      {
        assert Owns(f, f);
        MissingHasNoOwner(s.topics, names, f);
      }
    } else {
      var key, f :| s.topics.Resolve(key) == Missing && Owns(f, key) && s.Subscribers(f) != [];
      MissingHasNoOwner(s.topics, names, key);
      if g :| g in names && Owns(g, f) {
        OwnsTransitive(g, f, key);
      }
    }
  }

  lemma {:induction false} WithTopicsSound(idx: Index, names: set<string>, ts: seq<string>)
    requires Sound(idx, names)
    ensures Sound(WithTopics(idx, ts), names + set t | t in ts)
    decreases |ts|
  {
    if ts == [] {
      assert names + (set t | t in ts) == names;
    } else {
      var before, t := ts[..|ts| - 1], ts[|ts| - 1];
      WithTopicsSound(idx, names, before);
      AddSound(WithTopics(idx, before), names + (set t | t in before), t);
      NamesGrow(names, ts);
    }
  }

  lemma {:induction false} WithoutTopicsSound(idx: Index, names: set<string>, ts: seq<string>)
    requires Sound(idx, names)
    ensures Sound(WithoutTopics(idx, ts), names - set t | t in ts)
    decreases |ts|
  {
    if ts == [] {
      assert names - (set t | t in ts) == names;
    } else {
      var before, t := ts[..|ts| - 1], ts[|ts| - 1];
      WithoutTopicsSound(idx, names, before);
      RemoveSound(WithoutTopics(idx, before), names - (set t | t in before), t);
      NamesGrow(names, ts);
    }
  }

  /** The topics announced and not withdrawn since. */
  function Announced(ops: seq<Op>): set<string> {
    if ops == [] then {}
    else
      var names := Announced(ops[..|ops| - 1]);
      match ops[|ops| - 1]
      case Register(n) => names + set t | t in n.Topics()
      case Unregister(n) => names - set t | t in n.Topics()
      case _ => names
  }

  lemma {:induction false} TopicsSound(ops: seq<Op>)
    ensures Sound(After(ops).topics, Announced(ops))
    decreases |ops|
  {
    if ops == [] {
      assert forall key :: Owners({}, key) == {};
    } else {
      var before, s := ops[..|ops| - 1], After(ops[..|ops| - 1]);
      TopicsSound(before);
      match ops[|ops| - 1] {
        case Register(n) => WithTopicsSound(s.topics, Announced(before), n.Topics());
        case Unregister(n) => WithoutTopicsSound(s.topics, Announced(before), n.Topics());
        case Subscribe(_, _) =>
        case Unsubscribe(_, _) =>
      }
    }
  }

  // The topics as a run of their own.

  function TopicChanges(ops: seq<Op>): seq<AbbreviationLaws.Change> {
    if ops == [] then []
    else
      var before := TopicChanges(ops[..|ops| - 1]);
      match ops[|ops| - 1]
      case Register(n) => before + ChangesBy(n.Topics(), true)
      case Unregister(n) => before + ChangesBy(n.Topics(), false)
      case _ => before
  }

  lemma {:induction false} WithTopicsRun(ts: seq<string>, changes: seq<AbbreviationLaws.Change>)
    ensures var more := changes + ChangesBy(ts, true);
            && WithTopics(AbbreviationLaws.After(changes), ts) == AbbreviationLaws.After(more)
            && Registered(changes) + (set t | t in ts) == Registered(more)
    decreases |ts|
  {
    if ts == [] {
      assert changes + ChangesBy(ts, true) == changes;
    } else {
      var n := |ts| - 1;
      WithTopicsRun(ts[..n], changes);
      ChangesGrow(changes, ts, true);
      AbbreviationLaws.AfterSnoc(changes + ChangesBy(ts[..n], true), Adding(ts[n]));
      NamesGrow(Registered(changes), ts);
    }
  }

  lemma {:induction false} WithoutTopicsRun(ts: seq<string>, changes: seq<AbbreviationLaws.Change>)
    ensures var more := changes + ChangesBy(ts, false);
            && WithoutTopics(AbbreviationLaws.After(changes), ts) == AbbreviationLaws.After(more)
            && Registered(changes) - (set t | t in ts) == Registered(more)
    decreases |ts|
  {
    if ts == [] {
      assert changes + ChangesBy(ts, false) == changes;
    } else {
      var n := |ts| - 1;
      WithoutTopicsRun(ts[..n], changes);
      ChangesGrow(changes, ts, false);
      AbbreviationLaws.AfterSnoc(changes + ChangesBy(ts[..n], false), Removing(ts[n]));
      NamesGrow(Registered(changes), ts);
    }
  }

  lemma {:induction false} TopicsFollow(ops: seq<Op>)
    ensures After(ops).topics == AbbreviationLaws.After(TopicChanges(ops))
    ensures Announced(ops) == Registered(TopicChanges(ops))
    decreases |ops|
  {
    if ops != [] {
      var before := ops[..|ops| - 1];
      TopicsFollow(before);
      match ops[|ops| - 1] {
        case Register(n) => WithTopicsRun(n.Topics(), TopicChanges(before));
        case Unregister(n) => WithoutTopicsRun(n.Topics(), TopicChanges(before));
        case Subscribe(_, _) =>
        case Unsubscribe(_, _) =>
      }
    }
  }

  /**
   What subscribing and unsubscribing answer after any run: the topic is missing exactly
   without an announced owner; ambiguous exactly with two or a doubled one, and then these
   are the candidates; and done else, at the one owner.
   */
  lemma ToldByOwners(ops: seq<Op>, op: Op)
    requires op.Subscribe? || op.Unsubscribe?
    ensures var owners := Owners(Announced(ops), op.topic);
            var r := Do(After(ops), op).1;
            && (r == TopicMissing <==> owners == {})
            && (r.TopicAmbiguous? <==>
                |owners| >= 2 || exists f :: f in owners && Doubled(TopicChanges(ops), op.topic, f))
            && (r.TopicAmbiguous? ==> owners == set f | f in r.candidates)
            && (r == Done ==> exists f :: owners == {f} && After(ops).topics.Resolve(op.topic) == Found(f))
  {
    TopicsFollow(ops);
    ResolveExact(TopicChanges(ops), op.topic);
    ResolveSound(TopicChanges(ops), op.topic);
  }

  /**
   What publishing answers: ambiguous as in subscribing, done else; and unless one owner was
   found, nobody receives anything.
   */
  lemma PublishedByOwners(ops: seq<Op>, topic: string)
    ensures var owners := Owners(Announced(ops), topic);
            var (targets, r) := Published(After(ops), topic);
            && (if |owners| >= 2 || exists f :: f in owners && Doubled(TopicChanges(ops), topic, f)
                then r.TopicAmbiguous? && owners == set f | f in r.candidates
                else r == Done)
            && (targets != [] ==> r == Done && exists f :: owners == {f})
  {
    TopicsFollow(ops);
    ResolveExact(TopicChanges(ops), topic);
    ResolveSound(TopicChanges(ops), topic);
  }

  /** Targets keep the order of subscription: of two lists of subscribers, those of the first come first. */
  lemma {:induction false} TargetsInOrder(a: seq<string>, b: seq<string>, nodes: set<string>)
    ensures Targets(a + b, nodes) == Targets(a, nodes) + Targets(b, nodes)
    decreases |b|
  {
    if b == [] {
      assert a + b == a;
    } else {
      var n := |b| - 1;
      TargetsInOrder(a, b[..n], nodes);
      assert (a + b)[..|a + b| - 1] == a + b[..n];
    }
  }

  /**
   After any run nobody is left behind exactly while every topic with subscribers is
   covered; when a node goes, exactly if the topics of the others cover them.
   */
  lemma SubscribersLeftBehind(ops: seq<Op>, n: Node)
    ensures NobodyBehind(After(ops)) <==>
            forall f :: After(ops).Subscribers(f) != [] ==> Covered(Announced(ops), f)
    ensures NobodyBehind(Do(After(ops), Op.Unregister(n)).0) <==>
            forall f :: After(ops).Subscribers(f) != [] ==> Covered(Announced(ops) - (set t | t in n.Topics()), f)
  {
    var s := After(ops);
    var t := Do(s, Op.Unregister(n)).0;
    TopicsSound(ops);
    WithoutTopicsSound(s.topics, Announced(ops), n.Topics());
    NobodyBehindExact(s, Announced(ops));
    NobodyBehindExact(t, Announced(ops) - set t | t in n.Topics());
    assert forall f :: t.Subscribers(f) == s.Subscribers(f);
  }

  /** Only a node that goes can leave a subscriber behind. */
  lemma OnlyUnregisterLeavesBehind(ops: seq<Op>, op: Op)
    requires NobodyBehind(After(ops)) && !op.Unregister?
    ensures NobodyBehind(Do(After(ops), op).0)
  {
    var s, names := After(ops), Announced(ops);
    var t := Do(s, op).0;
    TopicsSound(ops);
    NobodyBehindExact(s, names);
    match op {
      case Register(n) =>
        WithTopicsSound(s.topics, names, n.Topics());
        var more := names + set t | t in n.Topics();
        NobodyBehindExact(t, more);
        forall f | t.Subscribers(f) != []
          ensures Covered(more, f)
        {
          assert s.Subscribers(f) == t.Subscribers(f);
        }
      case Subscribe(_, topic) =>
        NobodyBehindExact(t, names);
        ResolvedIsCovered(s, names, topic);
      case Unsubscribe(_, topic) =>
        NobodyBehindExact(t, names);
        ResolvedIsCovered(s, names, topic);
    }
  }

  lemma ResolvedIsCovered(s: State, names: set<string>, topic: string)
    requires Sound(s.topics, names)
    ensures var r := s.topics.Resolve(topic); r.Found? ==> Covered(names, r.fqname)
  {
    assert SoundEntry(EntryOf(s.topics, topic), Owners(names, topic));
    HolderOwns(EntryOf(s.topics, topic), Owners(names, topic));
    var r := s.topics.Resolve(topic);
    if r.Found? {
      assert r.fqname in names && Owns(r.fqname, r.fqname);
    }
  }

  /**
   Subscriptions outlive the topic: when the announcing node goes, the topic no longer
   resolves, but its subscribers stay and are served again once the node is back.
   */
  lemma SubscriptionsOutliveTopic(m: Manifest, t: Topic, cast: string)
    requires m.topics == [t] && cast != m.id
    ensures var f, n := m.id + "." + t.name, Node(m.id, Some(m));
            var gone := After([Op.Register(n)] + [Op.Subscribe(cast, f)] + [Op.Unregister(n)]);
            && gone.topics.Resolve(f) == Missing
            && gone.Subscribers(f) == [cast]
            && Do(gone, Op.Unsubscribe(cast, f)) == (gone, TopicMissing)
            && Do(gone, Op.Register(n)).0.topics.Resolve(f) == Found(f)
            && Do(gone, Op.Register(n)).0.Subscribers(f) == [cast]
  {
    var f, n := m.id + "." + t.name, Node(m.id, Some(m));
    AfterSnoc([], Op.Register(n));
    assert [] + [Op.Register(n)] == [Op.Register(n)];
    AfterSnoc([Op.Register(n)], Op.Subscribe(cast, f));
    AfterSnoc([Op.Register(n)] + [Op.Subscribe(cast, f)], Op.Unregister(n));
    TopicComes(SILENCE, n, f);
    var s1 := Do(SILENCE, Op.Register(n)).0;
    var s2 := s1.(subscriptions := map[f := [cast]]);
    assert s1.subscriptions == map[] && s1.Subscribers(f) + [cast] == [cast];
    assert s1.subscriptions[f := [cast]] == map[f := [cast]];
    TopicGoes(s2, n, f);
    TopicComes(Do(s2, Op.Unregister(n)).0, n, f);
  }

  lemma AfterSnoc(ops: seq<Op>, op: Op)
    ensures After(ops + [op]) == Do(After(ops), op).0
  {
  }

  lemma OneTopic(idx: Index, f: string)
    ensures WithTopics(idx, [f]) == idx.Add(f) && WithoutTopics(idx, [f]) == idx.Remove(f)
  {
  }

  lemma TopicComes(s: State, n: Node, f: string)
    requires n.Topics() == [f] && Disjoint(s.topics) && EntryOf(s.topics, f) == Free
    ensures var t := Do(s, Op.Register(n)).0;
            Disjoint(t.topics) && EntryOf(t.topics, f) == Sole(f) && t.topics.Resolve(f) == Found(f)
  {
    OneTopic(s.topics, f);
    AddEntry(s.topics, f, f);
  }

  lemma TopicGoes(s: State, n: Node, f: string)
    requires n.Topics() == [f] && Disjoint(s.topics) && EntryOf(s.topics, f) == Sole(f)
    ensures var t := Do(s, Op.Unregister(n)).0;
            Disjoint(t.topics) && EntryOf(t.topics, f) == Free && t.topics.Resolve(f) == Missing
  {
    OneTopic(s.topics, f);
    RemoveEntry(s.topics, f, f);
  }
}
