/** The command tables stay in step over every run. */
module ApiLaws {
  import opened Names
  import opened Abbreviations
  import opened AbbreviationLaws
  import opened Manifests
  import opened Wrappers
  import opened Api

  datatype Event = Registering(node: Node) | Unregistering(node: Node)

  function Handled(t: Tables, e: Event): Tables {
    match e
    case Registering(n) => t.Register(n)
    case Unregistering(n) => t.Unregister(n)
  }

  function AfterEvents(es: seq<Event>): Tables {
    if es == [] then NO_TABLES else Handled(AfterEvents(es[..|es| - 1]), es[|es| - 1])
  }

  /** The index answers for exactly the names in the command table. */
  ghost predicate InStep(t: Tables) {
    Sound(t.abbrevs, t.commands.Keys)
  }

  lemma {:induction false} WithCommandsEffect(t: Tables, id: string, fs: seq<string>)
    ensures var u := t.WithCommands(id, fs);
            && u.nodes == t.nodes
            && u.commands.Keys == t.commands.Keys + (set f | f in fs)
            && (forall f :: f in u.commands ==> u.commands[f] == if f in fs then id else t.commands[f])
            && (InStep(t) ==> InStep(u))
    decreases |fs|
  {
    if fs != [] {
      var before, f := fs[..|fs| - 1], fs[|fs| - 1];
      WithCommandsEffect(t, id, before);
      var u := t.WithCommands(id, before);
      assert fs == before + [f];
      PlusOneMore(t.commands, u.commands, before, f, id);
      if InStep(t) {
        AddSound(u.abbrevs, u.commands.Keys, f);
      }
    }
  }

  lemma PlusOneMore(commands: map<string, string>, more: map<string, string>, before: seq<string>, f: string, id: string)
    requires more.Keys == commands.Keys + (set g | g in before)
    requires forall g :: g in more ==> more[g] == if g in before then id else commands[g]
    ensures var now := more[f := id];
            && now.Keys == more.Keys + {f} && now.Keys == commands.Keys + (set g | g in before + [f])
            && forall g :: g in now ==> now[g] == if g in before + [f] then id else commands[g]
  {
  }

  lemma MinusOneMore(commands: map<string, string>, before: seq<string>, f: string)
    ensures var u := commands - (set g | g in before);
            (u - {f}).Keys == u.Keys - {f} && u - {f} == commands - (set g | g in before + [f])
  {
  }

  lemma {:induction false} WithoutCommandsEffect(t: Tables, fs: seq<string>)
    ensures var u := t.WithoutCommands(fs);
            && u.nodes == t.nodes
            && u.commands == t.commands - (set f | f in fs)
            && (InStep(t) ==> InStep(u))
    decreases |fs|
  {
    if fs != [] {
      var before, f := fs[..|fs| - 1], fs[|fs| - 1];
      WithoutCommandsEffect(t, before);
      var u := t.WithoutCommands(before);
      MinusOneMore(t.commands, before, f);
      assert fs == before + [f];
      if InStep(t) {
        RemoveSound(u.abbrevs, u.commands.Keys, f);
      }
    }
  }

  /** After any run of registrations, whatever the manifests, index and command table hold the same names. */
  lemma {:induction false} TablesInStep(es: seq<Event>)
    ensures InStep(AfterEvents(es))
    decreases |es|
  {
    if es == [] {
      assert forall key :: Owners({}, key) == {};
    } else {
      var t := AfterEvents(es[..|es| - 1]);
      TablesInStep(es[..|es| - 1]);
      match es[|es| - 1] {
        case Registering(n) => WithCommandsEffect(t.(nodes := t.nodes[n.id := n]), n.id, n.Commands());
        case Unregistering(n) => WithoutCommandsEffect(t.(nodes := t.nodes - {n.id}), n.Commands());
      }
    }
  }

  /** So the second lookup of a request never fails: a resolved name is a command. */
  lemma ResolvedIsCommand(es: seq<Event>, key: string)
    ensures var t := AfterEvents(es);
            && (t.abbrevs.Resolve(key).Found? ==> t.abbrevs.Resolve(key).fqname in t.commands)
            && (t.Find(key).CommandMissing? <==> Owners(t.commands.Keys, key) == {})
  {
    TablesInStep(es);
    var t := AfterEvents(es);
    var e, owners := EntryOf(t.abbrevs, key), Owners(t.commands.Keys, key);
    assert SoundEntry(e, owners);
    HolderOwns(e, owners);
  }

  // The index as a run of its own.

  function ChangesOf(es: seq<Event>): seq<Change> {
    if es == [] then []
    else
      var e := es[|es| - 1];
      ChangesOf(es[..|es| - 1]) + ChangesBy(e.node.Commands(), e.Registering?)
  }

  /** Index and command table are what the changes leave. */
  ghost predicate Follows(t: Tables, changes: seq<Change>) {
    t.abbrevs == AbbreviationLaws.After(changes) && t.commands.Keys == Registered(changes)
  }

  lemma FollowsAdding(t: Tables, changes: seq<Change>, id: string, f: string)
    requires Follows(t, changes)
    ensures Follows(Tables(t.nodes, t.commands[f := id], t.abbrevs.Add(f)), changes + [Adding(f)])
  {
    AfterSnoc(changes, Adding(f));
  }

  lemma FollowsRemoving(t: Tables, changes: seq<Change>, f: string)
    requires Follows(t, changes)
    ensures Follows(Tables(t.nodes, t.commands - {f}, t.abbrevs.Remove(f)), changes + [Removing(f)])
  {
    AfterSnoc(changes, Removing(f));
    assert (t.commands - {f}).Keys == t.commands.Keys - {f};
  }

  lemma {:induction false} WithCommandsRun(t: Tables, id: string, fs: seq<string>, changes: seq<Change>)
    requires Follows(t, changes)
    ensures Follows(t.WithCommands(id, fs), changes + ChangesBy(fs, true))
    decreases |fs|
  {
    if fs == [] {
      assert changes + ChangesBy(fs, true) == changes;
    } else {
      var n := |fs| - 1;
      WithCommandsRun(t, id, fs[..n], changes);
      ChangesGrow(changes, fs, true);
      FollowsAdding(t.WithCommands(id, fs[..n]), changes + ChangesBy(fs[..n], true), id, fs[n]);
    }
  }

  lemma {:induction false} WithoutCommandsRun(t: Tables, fs: seq<string>, changes: seq<Change>)
    requires Follows(t, changes)
    ensures Follows(t.WithoutCommands(fs), changes + ChangesBy(fs, false))
    decreases |fs|
  {
    if fs == [] {
      assert changes + ChangesBy(fs, false) == changes;
    } else {
      var n := |fs| - 1;
      WithoutCommandsRun(t, fs[..n], changes);
      ChangesGrow(changes, fs, false);
      FollowsRemoving(t.WithoutCommands(fs[..n]), changes + ChangesBy(fs[..n], false), fs[n]);
    }
  }

  lemma {:induction false} IndexFollows(es: seq<Event>)
    ensures Follows(AfterEvents(es), ChangesOf(es))
    decreases |es|
  {
    if es != [] {
      var k := |es| - 1;
      var t, changes := AfterEvents(es[..k]), ChangesOf(es[..k]);
      IndexFollows(es[..k]);
      match es[k] {
        case Registering(n) => WithCommandsRun(t.(nodes := t.nodes[n.id := n]), n.id, n.Commands(), changes);
        case Unregistering(n) => WithoutCommandsRun(t.(nodes := t.nodes - {n.id}), n.Commands(), changes);
      }
    }
  }

  /**
   After any run of registrations a command resolves exactly when one registered command
   owns it and that one was not doubled there.
   */
  lemma ResolvesExact(es: seq<Event>, key: string)
    ensures var t := AfterEvents(es);
            t.abbrevs.Resolve(key).Found? <==>
            exists f :: Owners(t.commands.Keys, key) == {f} && !Doubled(ChangesOf(es), key, f)
  {
    IndexFollows(es);
    ResolveExact(ChangesOf(es), key);
  }

  /** `f` is the only registered command that owns the key, and was not doubled there. */
  ghost predicate SoleAt(es: seq<Event>, key: string, f: string) {
    Owners(Registered(ChangesOf(es)), key) == {f} && !Doubled(ChangesOf(es), key, f)
  }

  /** A command's full name is the one registered command that owns it, if it was not doubled there; else it stays as it is. */
  lemma FullNameExact(es: seq<Event>, command: string)
    ensures var t := AfterEvents(es);
            && (forall f :: SoleAt(es, command, f) ==> t.FullName(command) == f)
            && ((forall f :: !SoleAt(es, command, f)) ==> t.FullName(command) == command)
  {
    IndexFollows(es);
    ResolveExact(ChangesOf(es), command);
    forall f | SoleAt(es, command, f)
      ensures AfterEvents(es).FullName(command) == f
    {
      assert Owners(Registered(ChangesOf(es)), command) == {f};
    }
    var r := AfterEvents(es).abbrevs.Resolve(command);
    if r.Found? {
      assert SoleAt(es, command, r.fqname);
    }
  }

  /** A full name is its own: asking for it again gives the same name. */
  lemma FullNameStable(es: seq<Event>, command: string)
    ensures var t := AfterEvents(es); t.FullName(t.FullName(command)) == t.FullName(command)
  {
    TablesInStep(es);
    var t := AfterEvents(es);
    var r, names := t.abbrevs.Resolve(command), t.commands.Keys;
    if r.Found? {
      var f := r.fqname;
      assert SoundEntry(EntryOf(t.abbrevs, command), Owners(names, command));
      assert Owners(names, command) == {f};
      forall g
        ensures g in Owners(names, f) <==> g == f
      {
        assert f in Owners(names, command);
        if g in Owners(names, f) {
          OwnsTransitive(g, f, command);
          assert g in Owners(names, command);
        }
      }
      assert Owners(names, f) == {f};
      assert SoundEntry(EntryOf(t.abbrevs, f), Owners(names, f));
    }
  }

  // What the tables hold, from the registrations alone.

  /** Event `i` is the last of the node. */
  predicate LastOf(es: seq<Event>, i: int, id: string) {
    0 <= i < |es| && es[i].node.id == id && forall j :: i < j < |es| ==> es[j].node.id != id
  }

  /** A node is registered exactly if its last event registers it, and then as it was given there. */
  lemma {:induction false} NodesByEvents(es: seq<Event>, id: string)
    ensures id in AfterEvents(es).nodes <==> exists i :: LastOf(es, i, id) && es[i].Registering?
    ensures forall i :: LastOf(es, i, id) && es[i].Registering? ==>
              id in AfterEvents(es).nodes && AfterEvents(es).nodes[id] == es[i].node
    decreases |es|
  {
    if es != [] {
      var k := |es| - 1;
      var before, t := es[..k], AfterEvents(es[..k]);
      NodesByEvents(before, id);
      match es[k] {
        case Registering(n) => WithCommandsEffect(t.(nodes := t.nodes[n.id := n]), n.id, n.Commands());
        case Unregistering(n) => WithoutCommandsEffect(t.(nodes := t.nodes - {n.id}), n.Commands());
      }
      forall i
        ensures LastOf(es, i, id) <==> if es[k].node.id == id then i == k else LastOf(before, i, id)
      {
        LastOfSnoc(es, i, id);
      }
      if es[k].node.id == id {
        assert LastOf(es, k, id);
      } else if i :| LastOf(before, i, id) && es[i].Registering? {
        assert LastOf(es, i, id);
      }
    }
  }

  lemma LastOfSnoc(es: seq<Event>, i: int, id: string)
    requires es != []
    ensures var k := |es| - 1;
            LastOf(es, i, id) <==> if es[k].node.id == id then i == k else LastOf(es[..k], i, id)
  {
    var k := |es| - 1;
    assert forall j :: 0 <= j < k ==> es[..k][j] == es[j];
  }

  /** Event `i` is the last whose node lists the command. */
  predicate LastListing(es: seq<Event>, i: int, f: string) {
    0 <= i < |es| && f in es[i].node.Commands() && forall j :: i < j < |es| ==> f !in es[j].node.Commands()
  }

  lemma LastListingSnoc(es: seq<Event>, i: int, f: string)
    requires es != []
    ensures var k := |es| - 1;
            LastListing(es, i, f) <==> if f in es[k].node.Commands() then i == k else LastListing(es[..k], i, f)
  {
    var k := |es| - 1;
    assert forall j :: 0 <= j < k ==> es[..k][j] == es[j];
  }

  /** A command is in the table exactly if the last event that lists it registers, and it is homed at that node. */
  lemma {:induction false} HomesByEvents(es: seq<Event>, f: string)
    ensures f in AfterEvents(es).commands <==> exists i :: LastListing(es, i, f) && es[i].Registering?
    ensures forall i :: LastListing(es, i, f) && es[i].Registering? ==>
              f in AfterEvents(es).commands && AfterEvents(es).commands[f] == es[i].node.id
    decreases |es|
  {
    if es != [] {
      var k := |es| - 1;
      var before, t := es[..k], AfterEvents(es[..k]);
      HomesByEvents(before, f);
      match es[k] {
        case Registering(n) => WithCommandsEffect(t.(nodes := t.nodes[n.id := n]), n.id, n.Commands());
        case Unregistering(n) => WithoutCommandsEffect(t.(nodes := t.nodes - {n.id}), n.Commands());
      }
      forall i
        ensures LastListing(es, i, f) <==> if f in es[k].node.Commands() then i == k else LastListing(before, i, f)
      {
        LastListingSnoc(es, i, f);
      }
      if f in es[k].node.Commands() {
        assert LastListing(es, k, f);
      } else if i :| LastListing(before, i, f) && es[i].Registering? {
        assert LastListing(es, i, f);
      }
    }
  }

  /**
   What the lookup of a command answers: missing exactly without an owner; ambiguous
   exactly with two owners or a doubled one, and then it lists the owners; found else.
   */
  lemma FindExact(es: seq<Event>, key: string)
    ensures var t := AfterEvents(es);
            var owners := Owners(Registered(ChangesOf(es)), key);
            && (t.Find(key).CommandMissing? <==> owners == {})
            && (t.Find(key).Collision? <==> |owners| >= 2 || exists f :: f in owners && Doubled(ChangesOf(es), key, f))
            && (t.Find(key).Collision? ==> owners == set f | f in t.Find(key).candidates)
            && (t.Find(key).Target? ==> SoleAt(es, key, t.Find(key).fqname))
  {
    IndexFollows(es);
    ResolveExact(ChangesOf(es), key);
    ResolvedIsCommand(es, key);
    var r := AfterEvents(es).abbrevs.Resolve(key);
    if r.Ambiguous? {
      ResolveSound(ChangesOf(es), key);
    }
  }

  /** Every command's home is a registered node. */
  ghost predicate Routable(t: Tables) {
    forall f :: f in t.commands ==> t.commands[f] in t.nodes
  }

  lemma RegisterRoutable(t: Tables, n: Node)
    requires Routable(t)
    ensures Routable(t.Register(n))
  {
    WithCommandsEffect(t.(nodes := t.nodes[n.id := n]), n.id, n.Commands());
  }

  /** The node's current manifest lists every command homed at it. */
  ghost predicate ListsItsOwn(t: Tables, n: Node) {
    forall f :: f in t.commands && t.commands[f] == n.id ==> f in n.Commands()
  }

  /**
   Unregistering leaves no command without its node exactly when the node's current
   manifest lists every command homed at that node.
   */
  lemma UnregisterRoutable(t: Tables, n: Node)
    requires Routable(t)
    ensures Routable(t.Unregister(n)) <==> ListsItsOwn(t, n)
  {
    var u := t.Unregister(n);
    WithoutCommandsEffect(t.(nodes := t.nodes - {n.id}), n.Commands());
    if f :| f in t.commands && t.commands[f] == n.id && f !in n.Commands() {
      assert f in u.commands && u.commands[f] !in u.nodes;
    }
  }

  ghost predicate RoutableAt(es: seq<Event>, n: nat)
    requires n <= |es|
  {
    Routable(AfterEvents(es[..n]))
  }

  ghost predicate ThoroughAt(es: seq<Event>, i: nat)
    requires i < |es|
  {
    es[i].Unregistering? ==> ListsItsOwn(AfterEvents(es[..i]), es[i].node)
  }

  /** Every node that unregistered listed all commands then homed at it. */
  ghost predicate Thorough(es: seq<Event>) {
    forall i :: 0 <= i < |es| ==> ThoroughAt(es, i)
  }

  ghost predicate AlwaysRoutable(es: seq<Event>) {
    forall n :: 0 <= n <= |es| ==> RoutableAt(es, n)
  }

  lemma RoutableStep(es: seq<Event>, n: nat)
    requires n < |es| && RoutableAt(es, n)
    ensures RoutableAt(es, n + 1) <==> ThoroughAt(es, n)
  {
    assert es[..n + 1][..n] == es[..n];
    match es[n] {
      case Registering(node) => RegisterRoutable(AfterEvents(es[..n]), node);
      case Unregistering(node) => UnregisterRoutable(AfterEvents(es[..n]), node);
    }
  }

  lemma {:induction false} ThoroughUpTo(es: seq<Event>, n: nat)
    requires n <= |es| && forall i :: 0 <= i < n ==> ThoroughAt(es, i)
    ensures RoutableAt(es, n)
  {
    if n > 0 {
      ThoroughUpTo(es, n - 1);
      RoutableStep(es, n - 1);
    }
  }

  /** Over a whole run every command's home stays a registered node exactly if every node that unregisters lists its own. */
  lemma RoutableRuns(es: seq<Event>)
    ensures AlwaysRoutable(es) <==> Thorough(es)
  {
    if Thorough(es) {
      forall n | 0 <= n <= |es|
        ensures RoutableAt(es, n)
      {
        ThoroughUpTo(es, n);
      }
    } else if AlwaysRoutable(es) {
      var i :| 0 <= i < |es| && !ThoroughAt(es, i);
      assert RoutableAt(es, i) && RoutableAt(es, i + 1);
      RoutableStep(es, i);
    }
  }

  /** A node id always comes with the same manifest. */
  ghost predicate FixedManifests(es: seq<Event>) {
    forall i, j :: 0 <= i < |es| && 0 <= j < |es| && es[i].node.id == es[j].node.id ==> es[i].node == es[j].node
  }

  /** Every command was registered by the node it is homed at. */
  ghost predicate Homed(t: Tables, es: seq<Event>) {
    forall f :: f in t.commands ==>
      exists i :: 0 <= i < |es| && es[i].node.id == t.commands[f] && f in es[i].node.Commands()
  }

  lemma {:induction false} FixedHomed(es: seq<Event>)
    requires FixedManifests(es)
    ensures Homed(AfterEvents(es), es)
    decreases |es|
  {
    if es != [] {
      var k := |es| - 1;
      var before, n := es[..k], es[k].node;
      FixedHomed(before);
      var t := AfterEvents(before);
      HomedLater(t, before, es);
      match es[k] {
        case Registering(_) => WithCommandsEffect(t.(nodes := t.nodes[n.id := n]), n.id, n.Commands());
        case Unregistering(_) => WithoutCommandsEffect(t.(nodes := t.nodes - {n.id}), n.Commands());
      }
    }
  }

  lemma HomedLater(t: Tables, before: seq<Event>, es: seq<Event>)
    requires Homed(t, before) && before <= es
    ensures Homed(t, es)
  {
  }

  /** With one manifest per node id every node that unregisters lists its own. */
  lemma FixedIsThorough(es: seq<Event>)
    requires FixedManifests(es)
    ensures Thorough(es)
  {
    forall i | 0 <= i < |es|
      ensures ThoroughAt(es, i)
    {
      FixedHomed(es[..i]);
      HomedLater(AfterEvents(es[..i]), es[..i], es);
    }
  }

  /**
   Where nodes list their own, a request that resolves always reaches a registered node:
   both later lookups succeed, and "node not found" is never answered.
   */
  lemma ResolvedReachesNode(es: seq<Event>, key: string)
    requires Thorough(es)
    ensures var t := AfterEvents(es);
            && !t.Find(key).NodeMissing?
            && (t.Find(key).Target? <==> t.abbrevs.Resolve(key).Found?)
            && (t.Find(key).Target? ==> Owners(t.commands.Keys, key) == {t.Find(key).fqname})
  {
    RoutableRuns(es);
    assert RoutableAt(es, |es|) && es[..|es|] == es;
    ResolvedIsCommand(es, key);
    TablesInStep(es);
    var t := AfterEvents(es);
    assert SoundEntry(EntryOf(t.abbrevs, key), Owners(t.commands.Keys, key));
  }

  /** A node whose manifest is gone when it unregisters leaves a command that leads nowhere. */
  lemma ChangedManifestDangles(m: Manifest, c: Command)
    requires m.api == [c]
    ensures var f := m.id + "." + c.name;
            AfterEvents([Registering(Node(m.id, Some(m)))] + [Unregistering(Node(m.id, None))]).Find(f) == NodeMissing
  {
    var f, n := m.id + "." + c.name, Node(m.id, Some(m));
    var e1 := [Registering(n)];
    var e2 := e1 + [Unregistering(Node(m.id, None))];
    assert e1[..0] == [] && e2[..1] == e1;
    assert n.Commands() == [f] && [f][..0] == [];
    var t0 := NO_TABLES.(nodes := map[m.id := n]);
    assert NO_TABLES.nodes[m.id := n] == map[m.id := n];
    assert t0.WithCommands(m.id, []) == t0;
    var t1 := Tables(t0.nodes, map[f := m.id], EMPTY.Add(f));
    assert t0.WithCommands(m.id, [f]) == t1;
    assert AfterEvents(e1) == t1;
    assert AfterEvents(e2) == t1.(nodes := t1.nodes - {m.id});
    AddEntry(EMPTY, f, f);
    assert EntryOf(t1.abbrevs, f) == Sole(f);
  }
}
