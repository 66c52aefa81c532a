/** The index against the plain scan over the registered names, over every run. */
module AbbreviationLaws {
  import opened Names
  import opened Lists
  import opened Abbreviations

  /** What the index holds for one key. */
  datatype Entry = Free | Sole(name: string) | Contended(names: seq<string>)

  function EntryOf(idx: Index, key: string): Entry {
    if key in idx.collisions then Contended(idx.collisions[key])
    else if key in idx.abbreviations then Sole(idx.abbreviations[key])
    else Free
  }

  function Bound(e: Entry, name: string): Entry {
    match e
    case Free => Sole(name)
    case Sole(existing) => if existing == name then e else Contended([existing, name])
    case Contended(names) => Contended(names + [name])
  }

  function Freed(e: Entry, name: string): Entry {
    match e
    case Free => Free
    case Sole(existing) => if existing == name then Free else e
    case Contended(names) =>
      var remaining := Without(names, name);
      if |remaining| == 0 then Free
      else if |remaining| == 1 then Sole(remaining[0])
      else Contended(remaining)
  }

  ghost predicate Disjoint(idx: Index) {
    idx.abbreviations.Keys !! idx.collisions.Keys
  }

  lemma BindEntry(idx: Index, key: string, name: string)
    requires Disjoint(idx)
    ensures Disjoint(idx.Bind(key, name))
    ensures forall k :: EntryOf(idx.Bind(key, name), k) ==
                        if k == key then Bound(EntryOf(idx, k), name) else EntryOf(idx, k)
  {
  }

  lemma UnbindEntry(idx: Index, key: string, name: string)
    requires Disjoint(idx)
    ensures Disjoint(idx.Unbind(key, name))
    ensures forall k :: EntryOf(idx.Unbind(key, name), k) ==
                        if k == key then Freed(EntryOf(idx, k), name) else EntryOf(idx, k)
  {
  }

  lemma {:induction false} BindAllEntry(idx: Index, keys: seq<string>, name: string)
    requires Disjoint(idx) && Distinct(keys)
    ensures Disjoint(idx.BindAll(keys, name))
    ensures forall k :: EntryOf(idx.BindAll(keys, name), k) ==
                        if k in keys then Bound(EntryOf(idx, k), name) else EntryOf(idx, k)
    decreases |keys|
  {
    if keys != [] {
      var n := |keys| - 1;
      BindAllEntry(idx, keys[..n], name);
      BindEntry(idx.BindAll(keys[..n], name), keys[n], name);
      assert keys == keys[..n] + [keys[n]];
    }
  }

  lemma {:induction false} UnbindAllEntry(idx: Index, keys: seq<string>, name: string)
    requires Disjoint(idx) && Distinct(keys)
    ensures Disjoint(idx.UnbindAll(keys, name))
    ensures forall k :: EntryOf(idx.UnbindAll(keys, name), k) ==
                        if k in keys then Freed(EntryOf(idx, k), name) else EntryOf(idx, k)
    decreases |keys|
  {
    if keys != [] {
      var n := |keys| - 1;
      UnbindAllEntry(idx, keys[..n], name);
      UnbindEntry(idx.UnbindAll(keys[..n], name), keys[n], name);
      assert keys == keys[..n] + [keys[n]];
    }
  }

  /** Adding a name binds just the keys it owns. */
  lemma AddEntry(idx: Index, name: string, key: string)
    requires Disjoint(idx)
    ensures Disjoint(idx.Add(name))
    ensures EntryOf(idx.Add(name), key) ==
            if Owns(name, key) then Bound(EntryOf(idx, key), name) else EntryOf(idx, key)
  {
    SuffixesAreOwned(name);
    BindAllEntry(idx, Suffixes(name), name);
  }

  /** Removing a name frees just the keys it owns. */
  lemma RemoveEntry(idx: Index, name: string, key: string)
    requires Disjoint(idx)
    ensures Disjoint(idx.Remove(name))
    ensures EntryOf(idx.Remove(name), key) ==
            if Owns(name, key) then Freed(EntryOf(idx, key), name) else EntryOf(idx, key)
  {
    SuffixesAreOwned(name);
    UnbindAllEntry(idx, Suffixes(name), name);
  }

  // Soundness.

  /** The registered names that own a key. */
  ghost function Owners(names: set<string>, key: string): set<string> {
    set f | f in names && Owns(f, key)
  }

  ghost predicate SoundEntry(e: Entry, owners: set<string>) {
    match e
    case Free => owners == {}
    case Sole(f) => owners == {f}
    case Contended(fs) => |fs| >= 2 && owners == set f | f in fs
  }

  ghost predicate Sound(idx: Index, names: set<string>) {
    Disjoint(idx) && forall key :: SoundEntry(EntryOf(idx, key), Owners(names, key))
  }

  lemma BoundSound(e: Entry, owners: set<string>, f: string)
    requires SoundEntry(e, owners)
    ensures SoundEntry(Bound(e, f), owners + {f})
  {
  }

  lemma FreedSound(e: Entry, owners: set<string>, f: string)
    requires SoundEntry(e, owners)
    ensures SoundEntry(Freed(e, f), owners - {f})
  {
    if e.Contended? {
      var remaining := Without(e.names, f);
      WithoutMembers(e.names, f);
      assert owners - {f} == set g | g in remaining;
      if |remaining| == 1 {
        assert remaining == [remaining[0]];
      }
    }
  }

  lemma AddSound(idx: Index, names: set<string>, f: string)
    requires Sound(idx, names)
    ensures Sound(idx.Add(f), names + {f})
  {
    forall key
      ensures SoundEntry(EntryOf(idx.Add(f), key), Owners(names + {f}, key))
    {
      AddSoundAt(idx, names, f, key);
    }
    AddEntry(idx, f, f);
  }

  lemma AddSoundAt(idx: Index, names: set<string>, f: string, key: string)
    requires Disjoint(idx) && SoundEntry(EntryOf(idx, key), Owners(names, key))
    ensures SoundEntry(EntryOf(idx.Add(f), key), Owners(names + {f}, key))
  {
    AddEntry(idx, f, key);
    OwnersPlus(names, f, key);
    if Owns(f, key) {
      BoundSound(EntryOf(idx, key), Owners(names, key), f);
    }
  }

  lemma OwnersPlus(names: set<string>, f: string, key: string)
    ensures Owners(names + {f}, key) == if Owns(f, key) then Owners(names, key) + {f} else Owners(names, key)
    ensures Owners(names - {f}, key) == if Owns(f, key) then Owners(names, key) - {f} else Owners(names, key)
  {
  }

  lemma RemoveSound(idx: Index, names: set<string>, f: string)
    requires Sound(idx, names)
    ensures Sound(idx.Remove(f), names - {f})
  {
    forall key
      ensures SoundEntry(EntryOf(idx.Remove(f), key), Owners(names - {f}, key))
    {
      RemoveSoundAt(idx, names, f, key);
    }
    RemoveEntry(idx, f, f);
  }

  lemma RemoveSoundAt(idx: Index, names: set<string>, f: string, key: string)
    requires Disjoint(idx) && SoundEntry(EntryOf(idx, key), Owners(names, key))
    ensures SoundEntry(EntryOf(idx.Remove(f), key), Owners(names - {f}, key))
  {
    RemoveEntry(idx, f, key);
    OwnersPlus(names, f, key);
    if Owns(f, key) {
      FreedSound(EntryOf(idx, key), Owners(names, key), f);
    }
  }

  // Runs.

  datatype Change = Adding(name: string) | Removing(name: string)

  function Changed(idx: Index, c: Change): Index {
    match c
    case Adding(f) => idx.Add(f)
    case Removing(f) => idx.Remove(f)
  }

  function Kept(names: set<string>, c: Change): set<string> {
    match c
    case Adding(f) => names + {f}
    case Removing(f) => names - {f}
  }

  function After(changes: seq<Change>): Index {
    if changes == [] then EMPTY
    else Changed(After(changes[..|changes| - 1]), changes[|changes| - 1])
  }

  /** The names added and not removed since. */
  function Registered(changes: seq<Change>): set<string> {
    if changes == [] then {}
    else Kept(Registered(changes[..|changes| - 1]), changes[|changes| - 1])
  }

  lemma {:induction false} RunSound(changes: seq<Change>)
    ensures Sound(After(changes), Registered(changes))
    decreases |changes|
  {
    if changes == [] {
      assert forall key :: Owners({}, key) == {};
    } else {
      var before := changes[..|changes| - 1];
      RunSound(before);
      match changes[|changes| - 1] {
        case Adding(f) => AddSound(After(before), Registered(before), f);
        case Removing(f) => RemoveSound(After(before), Registered(before), f);
      }
    }
  }

  /**
   After any run, names added twice included: a resolved name is the only owner of the
   key, an ambiguous key lists exactly its owners, and a missed key has none.
   */
  lemma ResolveSound(changes: seq<Change>, key: string)
    ensures match After(changes).Resolve(key)
            case Found(f) => Owners(Registered(changes), key) == {f}
            case Ambiguous(fs) => |fs| >= 2 && Owners(Registered(changes), key) == set f | f in fs
            case Missing => Owners(Registered(changes), key) == {}
  {
    RunSound(changes);
    var e := EntryOf(After(changes), key);
    assert SoundEntry(e, Owners(Registered(changes), key));
  }

  // Exactness.

  /** No candidate list names a contender twice. */
  ghost predicate Exact(idx: Index) {
    forall key :: key in idx.collisions ==> Distinct(idx.collisions[key])
  }

  ghost predicate ExactEntry(e: Entry) {
    e.Contended? ==> Distinct(e.names)
  }

  lemma ExactByEntry(idx: Index)
    ensures Exact(idx) <==> forall key :: ExactEntry(EntryOf(idx, key))
  {
    if Exact(idx) {
    } else {
      var key :| key in idx.collisions && !Distinct(idx.collisions[key]);
      assert !ExactEntry(EntryOf(idx, key));
    }
  }

  /** Adding `f` again to a key it already contends for. */
  ghost predicate Redundant(idx: Index, names: set<string>, f: string) {
    f in names && exists key :: key in idx.collisions && Owns(f, key)
  }

  lemma BoundExact(e: Entry, owners: set<string>, f: string)
    requires SoundEntry(e, owners) && ExactEntry(e)
    ensures ExactEntry(Bound(e, f)) <==> !(e.Contended? && f in owners)
  {
    if e.Contended? && f in owners {
      var i :| 0 <= i < |e.names| && e.names[i] == f;
      var fs := e.names + [f];
      assert fs[i] == fs[|e.names|];
    }
  }

  /**
   Adding keeps the candidate lists free of repeats exactly when the name is new or
   none of its keys is contended.
   */
  lemma AddExact(idx: Index, names: set<string>, f: string)
    requires Sound(idx, names) && Exact(idx)
    ensures Exact(idx.Add(f)) <==> !Redundant(idx, names, f)
  {
    ExactByEntry(idx);
    ExactByEntry(idx.Add(f));
    forall key
      ensures ExactEntry(EntryOf(idx.Add(f), key)) <==>
              !(Owns(f, key) && key in idx.collisions && f in names)
    {
      AddEntry(idx, f, key);
      assert SoundEntry(EntryOf(idx, key), Owners(names, key));
      BoundExact(EntryOf(idx, key), Owners(names, key), f);
    }
    if Redundant(idx, names, f) {
      var key :| key in idx.collisions && Owns(f, key);
      assert !ExactEntry(EntryOf(idx.Add(f), key));
    }
  }

  // Names added again, over whole runs.

  /** How often the entry names `f`. */
  function Times(e: Entry, f: string): nat {
    match e
    case Free => 0
    case Sole(g) => if g == f then 1 else 0
    case Contended(fs) => multiset(fs)[f]
  }

  lemma BoundTimes(e: Entry, f: string, g: string)
    ensures Times(Bound(e, f), g) == if g != f then Times(e, g) else if e.Contended? then Times(e, f) + 1 else 1
  {
  }

  lemma FreedTimes(e: Entry, f: string, g: string)
    ensures Times(Freed(e, f), g) == if g == f then 0 else Times(e, g)
  {
    if e.Contended? {
      WithoutCount(e.names, f, g);
      var remaining := Without(e.names, f);
      if |remaining| == 1 {
        assert remaining == [remaining[0]];
      }
    }
  }

  lemma TimesOwners(e: Entry, owners: set<string>, f: string)
    requires SoundEntry(e, owners)
    ensures Times(e, f) >= 1 <==> f in owners
    ensures e.Contended? && owners == {f} ==> Times(e, f) >= 2
  {
    if e.Contended? && owners == {f} {
      assert e.names[0] in owners && e.names[1] in owners;
      assert e.names == [f, f] + e.names[2..];
    }
  }

  /** Change `i` adds `f` again to a key that another registered name owns too. */
  ghost predicate AddedAgain(changes: seq<Change>, i: int, key: string, f: string) {
    && 0 <= i < |changes| && changes[i] == Adding(f)
    && var owners := Owners(Registered(changes[..i]), key);
       f in owners && owners != {f}
  }

  predicate NotRemovedSince(changes: seq<Change>, i: int, f: string) {
    forall j :: i < j < |changes| && 0 <= j ==> changes[j] != Removing(f)
  }

  /** `f` was added again while it was not alone with the key, and has not been removed since. */
  ghost predicate Doubled(changes: seq<Change>, key: string, f: string) {
    exists i :: AddedAgain(changes, i, key, f) && NotRemovedSince(changes, i, f)
  }

  lemma AddedAgainBefore(changes: seq<Change>, n: nat, i: int, key: string, f: string)
    requires i < n <= |changes|
    ensures AddedAgain(changes[..n], i, key, f) <==> AddedAgain(changes, i, key, f)
  {
    if 0 <= i {
      assert changes[..n][..i] == changes[..i];
    }
  }

  lemma NotRemovedSnoc(changes: seq<Change>, i: int, f: string)
    requires 0 <= i < |changes| - 1
    ensures var n := |changes| - 1;
            NotRemovedSince(changes, i, f) <==> NotRemovedSince(changes[..n], i, f) && changes[n] != Removing(f)
  {
    var n := |changes| - 1;
    assert forall j :: 0 <= j < n ==> changes[..n][j] == changes[j];
  }

  lemma DoubledSnoc(changes: seq<Change>, key: string, f: string)
    requires changes != []
    ensures var n := |changes| - 1;
            Doubled(changes, key, f) <==>
            AddedAgain(changes, n, key, f) || (changes[n] != Removing(f) && Doubled(changes[..n], key, f))
  {
    var n := |changes| - 1;
    if i :| AddedAgain(changes, i, key, f) && NotRemovedSince(changes, i, f) && i < n {
      AddedAgainBefore(changes, n, i, key, f);
      NotRemovedSnoc(changes, i, f);
    }
    if i :| AddedAgain(changes[..n], i, key, f) && NotRemovedSince(changes[..n], i, f) {
      AddedAgainBefore(changes, n, i, key, f);
      NotRemovedSnoc(changes, i, f);
    }
    if AddedAgain(changes, n, key, f) {
      assert NotRemovedSince(changes, n, f);
    }
  }

  /** A key's entry names `f` twice or more exactly when `f` was doubled there. */
  lemma {:induction false} TimesDoubled(changes: seq<Change>, key: string, f: string)
    ensures Times(EntryOf(After(changes), key), f) >= 2 <==> Doubled(changes, key, f)
    decreases |changes|
  {
    if changes != [] {
      var n := |changes| - 1;
      var before := changes[..n];
      var e, owners := EntryOf(After(before), key), Owners(Registered(before), key);
      TimesDoubled(before, key, f);
      RunSound(before);
      assert SoundEntry(e, owners);
      TimesOwners(e, owners, f);
      DoubledSnoc(changes, key, f);
      match changes[n] {
        case Adding(g) =>
          AddEntry(After(before), g, key);
          BoundTimes(e, g, f);
        case Removing(g) =>
          RemoveEntry(After(before), g, key);
          FreedTimes(e, g, f);
      }
    }
  }

  lemma Repeated(fs: seq<string>) returns (f: string)
    requires !Distinct(fs)
    ensures multiset(fs)[f] >= 2
  {
    var i, j :| 0 <= i < j < |fs| && fs[i] == fs[j];
    f := fs[i];
    assert fs == fs[..i] + [f] + fs[i + 1..j] + [f] + fs[j + 1..];
  }

  /** Nothing was doubled at the key. */
  ghost predicate Undoubled(changes: seq<Change>, key: string) {
    forall f :: !Doubled(changes, key, f)
  }

  /** The list of a key is free of repeats exactly when nothing was doubled there. */
  lemma EntryUndoubled(changes: seq<Change>, key: string)
    ensures ExactEntry(EntryOf(After(changes), key)) <==> Undoubled(changes, key)
  {
    var e := EntryOf(After(changes), key);
    if ExactEntry(e) {
      forall f
        ensures !Doubled(changes, key, f)
      {
        TimesDoubled(changes, key, f);
        if e.Contended? {
          DistinctOnce(e.names, f);
        }
      }
    } else {
      var f := Repeated(e.names);
      TimesDoubled(changes, key, f);
    }
  }

  /** Only a registered name can be doubled, and a key its one owner has to contend for is one where it was. */
  lemma DoubledOwns(changes: seq<Change>, key: string, f: string)
    ensures var e, owners := EntryOf(After(changes), key), Owners(Registered(changes), key);
            && (Doubled(changes, key, f) ==> f in owners && e.Contended?)
            && (owners == {f} ==> (Doubled(changes, key, f) <==> e.Contended?))
  {
    RunSound(changes);
    var e, owners := EntryOf(After(changes), key), Owners(Registered(changes), key);
    assert SoundEntry(e, owners);
    TimesOwners(e, owners, f);
    TimesDoubled(changes, key, f);
  }

  /**
   What the index answers after any run: a key without owners is missed, a key is found
   exactly when it has one owner that was not doubled, and is ambiguous else. The
   candidates are the owners, each listed once unless one of them was doubled.
   */
  lemma ResolveExact(changes: seq<Change>, key: string)
    ensures var owners := Owners(Registered(changes), key);
            var r := After(changes).Resolve(key);
            && (r.Missing? <==> owners == {})
            && (r.Found? <==> exists f :: owners == {f} && !Doubled(changes, key, f))
            && (r.Ambiguous? <==> |owners| >= 2 || exists f :: f in owners && Doubled(changes, key, f))
            && (r.Found? ==> owners == {r.fqname})
            && (r.Ambiguous? ==> && owners == (set f | f in r.candidates)
                                 && (Distinct(r.candidates) <==> Undoubled(changes, key)))
  {
    RunSound(changes);
    var e, owners := EntryOf(After(changes), key), Owners(Registered(changes), key);
    assert SoundEntry(e, owners);
    EntryUndoubled(changes, key);
    forall f
      ensures Doubled(changes, key, f) ==> f in owners && e.Contended?
      ensures owners == {f} ==> (Doubled(changes, key, f) <==> e.Contended?)
    {
      DoubledOwns(changes, key, f);
    }
    match e {
      case Free =>
      case Sole(f) => assert !Doubled(changes, key, f);
      case Contended(fs) => ManyOwners(fs, owners);
    }
  }

  lemma ManyOwners(fs: seq<string>, owners: set<string>)
    requires |fs| >= 2 && owners == set f | f in fs
    ensures |owners| >= 2 || owners == {fs[0]}
  {
    assert fs[0] in owners;
    if owners != {fs[0]} {
      var g :| g in owners && g != fs[0];
      assert {fs[0], g} <= owners;
      SubsetSize({fs[0], g}, owners);
    }
  }

  lemma {:induction false} SubsetSize(a: set<string>, b: set<string>)
    requires a <= b
    ensures |a| <= |b|
  {
    assert b == a + (b - a);
  }

  // Runs that keep the index exact.

  /** If change `i` adds a name that is present, the name is alone with each of its keys. */
  ghost predicate CarefulAt(changes: seq<Change>, i: nat)
    requires i < |changes|
  {
    changes[i].Adding? && changes[i].name in Registered(changes[..i]) ==>
      forall key :: Owns(changes[i].name, key) ==> Owners(Registered(changes[..i]), key) == {changes[i].name}
  }

  ghost predicate Careful(changes: seq<Change>) {
    forall i :: 0 <= i < |changes| ==> CarefulAt(changes, i)
  }

  ghost predicate ExactAt(changes: seq<Change>, n: nat)
    requires n <= |changes|
  {
    Exact(After(changes[..n]))
  }

  /** No list repeats a name exactly when nothing is doubled. */
  lemma ExactUndoubled(changes: seq<Change>)
    ensures Exact(After(changes)) <==> forall key :: Undoubled(changes, key)
  {
    ExactByEntry(After(changes));
    forall key
      ensures ExactEntry(EntryOf(After(changes), key)) <==> Undoubled(changes, key)
    {
      EntryUndoubled(changes, key);
    }
  }

  /** The lists stay free of repeats all along exactly when every name added again is alone with its keys. */
  lemma CarefulExact(changes: seq<Change>)
    ensures (forall n :: 0 <= n <= |changes| ==> ExactAt(changes, n)) <==> Careful(changes)
  {
    if Careful(changes) {
      forall n | 0 <= n <= |changes|
        ensures ExactAt(changes, n)
      {
        CarefulUndoubled(changes, n);
        ExactUndoubled(changes[..n]);
      }
    } else {
      var i :| 0 <= i < |changes| && !CarefulAt(changes, i);
      CarelessDoubles(changes, i);
    }
  }

  lemma CarefulUndoubled(changes: seq<Change>, n: nat)
    requires Careful(changes) && n <= |changes|
    ensures forall key :: Undoubled(changes[..n], key)
  {
    forall key, f
      ensures !Doubled(changes[..n], key, f)
    {
      if i :| AddedAgain(changes[..n], i, key, f) && NotRemovedSince(changes[..n], i, f) {
        AddedAgainBefore(changes, n, i, key, f);
        assert CarefulAt(changes, i);
      }
    }
  }

  lemma CarelessDoubles(changes: seq<Change>, i: nat)
    requires i < |changes| && !CarefulAt(changes, i)
    ensures !ExactAt(changes, i + 1)
  {
    var f := changes[i].name;
    var key :| Owns(f, key) && Owners(Registered(changes[..i]), key) != {f};
    assert AddedAgain(changes, i, key, f);
    AddedAgainBefore(changes, i + 1, i, key, f);
    assert NotRemovedSince(changes[..i + 1], i, f);
    assert Doubled(changes[..i + 1], key, f) && !Undoubled(changes[..i + 1], key);
    ExactUndoubled(changes[..i + 1]);
  }

  /** Every name is removed before it is added again. */
  ghost predicate Orderly(changes: seq<Change>) {
    forall i :: 0 <= i < |changes| && changes[i].Adding? ==> changes[i].name !in Registered(changes[..i])
  }

  /** So are runs without repeats careful, but not only those: a name alone may be added as often as it likes. */
  lemma CarefulRuns(changes: seq<Change>, f: string)
    ensures Orderly(changes) ==> Careful(changes)
    ensures Careful([Adding(f)] + [Adding(f)]) && !Orderly([Adding(f)] + [Adding(f)])
  {
    var twice := [Adding(f)] + [Adding(f)];
    assert twice[..1] == [Adding(f)] && twice[..0] == [];
    AfterSnoc([], Adding(f));
    assert [] + [Adding(f)] == [Adding(f)];
    assert Registered(twice[..1]) == {f};
    assert CarefulAt(twice, 0) && CarefulAt(twice, 1);
  }

  // Names that can be called.

  /**
   A registered name can be called by some key exactly when its full name finds it: when
   no other registered name ends in it, and it was not doubled. A more qualified key
   never helps where the full name does not.
   */
  lemma CallableExact(changes: seq<Change>, f: string)
    requires f in Registered(changes)
    ensures (exists key :: Owns(f, key) && After(changes).Resolve(key) == Found(f)) <==>
            Unshadowed(Registered(changes), f) && !Doubled(changes, f, f)
    ensures After(changes).Resolve(f) == Found(f) <==>
            Unshadowed(Registered(changes), f) && !Doubled(changes, f, f)
  {
    ResolveExact(changes, f);
    AloneAtFullName(Registered(changes), f, f);
    if key :| Owns(f, key) && After(changes).Resolve(key) == Found(f) {
      ResolveExact(changes, key);
      AloneAtFullName(Registered(changes), f, key);
      DoubledAtAll(changes, f, key);
    }
  }

  /** No other registered name ends in `f`. */
  ghost predicate Unshadowed(names: set<string>, f: string) {
    forall g :: g in names && Owns(g, f) ==> g == f
  }

  lemma AloneAtFullName(names: set<string>, f: string, key: string)
    requires f in names && Owns(f, key)
    ensures Owners(names, key) == {f} ==> Unshadowed(names, f)
    ensures key == f && Unshadowed(names, f) ==> Owners(names, key) == {f}
  {
    if Owners(names, key) == {f} {
      forall g | g in names && Owns(g, f)
        ensures g == f
      {
        OwnsTransitive(g, f, key);
        assert g in Owners(names, key);
      }
    }
  }

  /** A name doubled at its full name is doubled at each of its keys. */
  lemma DoubledAtAll(changes: seq<Change>, f: string, key: string)
    requires Owns(f, key)
    ensures Doubled(changes, f, f) ==> Doubled(changes, key, f)
  {
    if i :| AddedAgain(changes, i, f, f) && NotRemovedSince(changes, i, f) {
      var names := Registered(changes[..i]);
      var g :| g in Owners(names, f) && g != f;
      OwnsTransitive(g, f, key);
      assert g in Owners(names, key) && f in Owners(names, key);
      assert AddedAgain(changes, i, key, f);
    }
  }

  /** A name that ends in another shadows it for good: beside `b`, no key of `a` finds `a`. */
  lemma ShadowedName(a: string, b: string, key: string)
    requires a != b && Owns(b, a) && Owns(a, key)
    ensures After([Adding(a)] + [Adding(b)]).Resolve(key) == Ambiguous([a, b])
  {
    OwnsTransitive(b, a, key);
    AfterSnoc([], Adding(a));
    assert [] + [Adding(a)] == [Adding(a)];
    AfterSnoc([Adding(a)], Adding(b));
    AddEntry(EMPTY, a, key);
    AddEntry(EMPTY.Add(a), b, key);
  }

  lemma AfterSnoc(changes: seq<Change>, c: Change)
    ensures After(changes + [c]) == Changed(After(changes), c)
    ensures Registered(changes + [c]) == Kept(Registered(changes), c)
  {
  }

  /** All the names added, or removed, in order. */
  function ChangesBy(names: seq<string>, adding: bool): (cs: seq<Change>)
    ensures |cs| == |names|
  {
    seq(|names|, i requires 0 <= i < |names| => if adding then Adding(names[i]) else Removing(names[i]))
  }

  lemma ChangesGrow(changes: seq<Change>, fs: seq<string>, adding: bool)
    requires fs != []
    ensures var n := |fs| - 1;
            changes + ChangesBy(fs, adding) ==
            changes + ChangesBy(fs[..n], adding) + [if adding then Adding(fs[n]) else Removing(fs[n])]
  {
    var n := |fs| - 1;
    assert ChangesBy(fs, adding) ==
           ChangesBy(fs[..n], adding) + [if adding then Adding(fs[n]) else Removing(fs[n])];
  }

  lemma NamesGrow(names: set<string>, fs: seq<string>)
    requires fs != []
    ensures var n := |fs| - 1;
            && names + (set f | f in fs) == names + (set f | f in fs[..n]) + {fs[n]}
            && names - (set f | f in fs) == names - (set f | f in fs[..n]) - {fs[n]}
  {
    assert fs == fs[..|fs| - 1] + [fs[|fs| - 1]];
  }

  /** Two contenders for a free key, one of them added twice, and the other removed again. */
  function Readded(changes: seq<Change>, a: string, b: string): seq<Change> {
    changes + [Adding(a)] + [Adding(b)] + [Adding(b)] + [Removing(a)]
  }

  /**
   A node that registers twice: after the other contender goes, the key has one owner
   but still looks ambiguous.
   */
  lemma AddedTwiceStaysAmbiguous(changes: seq<Change>, a: string, b: string, key: string)
    requires a != b && Owns(a, key) && Owns(b, key) && Owners(Registered(changes), key) == {}
    ensures Owners(Registered(Readded(changes, a, b)), key) == {b}
    ensures After(Readded(changes, a, b)).Resolve(key) == Ambiguous([b, b])
  {
    ReaddedNames(changes, a, b, key);
    ReaddedEntry(changes, a, b, key);
  }

  lemma ReaddedRegistered(changes: seq<Change>, a: string, b: string)
    ensures Registered(Readded(changes, a, b)) == Registered(changes) + {a} + {b} - {a}
  {
    AfterSnoc(changes, Adding(a));
    AfterSnoc(changes + [Adding(a)], Adding(b));
    AfterSnoc(changes + [Adding(a)] + [Adding(b)], Adding(b));
    AfterSnoc(changes + [Adding(a)] + [Adding(b)] + [Adding(b)], Removing(a));
    var names := Registered(changes);
    assert names + {a} + {b} + {b} == names + {a} + {b};
  }

  lemma ReaddedNames(changes: seq<Change>, a: string, b: string, key: string)
    requires a != b && Owns(a, key) && Owns(b, key) && Owners(Registered(changes), key) == {}
    ensures Owners(Registered(Readded(changes, a, b)), key) == {b}
  {
    var names := Registered(changes);
    ReaddedRegistered(changes, a, b);
    forall f | f in names
      ensures !Owns(f, key)
    {
      assert f !in Owners(names, key);
    }
  }

  lemma HolderOwns(e: Entry, owners: set<string>)
    requires SoundEntry(e, owners)
    ensures e.Sole? ==> e.name in owners
    ensures e.Contended? ==> e.names[0] in owners
  {
  }

  lemma ReaddedEntry(changes: seq<Change>, a: string, b: string, key: string)
    requires a != b && Owns(a, key) && Owns(b, key) && Owners(Registered(changes), key) == {}
    ensures After(Readded(changes, a, b)).Resolve(key) == Ambiguous([b, b])
  {
    RunSound(changes);
    var idx := After(changes);
    HolderOwns(EntryOf(idx, key), Owners(Registered(changes), key));
    AfterSnoc(changes, Adding(a));
    AfterSnoc(changes + [Adding(a)], Adding(b));
    AfterSnoc(changes + [Adding(a)] + [Adding(b)], Adding(b));
    AfterSnoc(changes + [Adding(a)] + [Adding(b)] + [Adding(b)], Removing(a));
    ReaddedIndex(idx, a, b, key);
  }

  lemma ReaddedIndex(idx: Index, a: string, b: string, key: string)
    requires Disjoint(idx) && a != b && Owns(a, key) && Owns(b, key) && EntryOf(idx, key) == Free
    ensures EntryOf(idx.Add(a).Add(b).Add(b).Remove(a), key) == Contended([b, b])
  {
    AddEntry(idx, a, key);
    AddEntry(idx.Add(a), b, key);
    AddEntry(idx.Add(a).Add(b), b, key);
    RemoveEntry(idx.Add(a).Add(b).Add(b), a, key);
    FirstGoes(a, b);
  }

  lemma FirstGoes(a: string, b: string)
    requires a != b
    ensures Without([a, b] + [b], a) == [b, b]
  {
    WithoutSnoc([a, b], b, a);
    WithoutSnoc([a], b, a);
    WithoutSnoc([], a, a);
    assert [a] + [b] == [a, b] && [] + [a] == [a];
  }

  lemma AddedTwiceExample()
    ensures var changes := Readded([], "a.x", "b.x");
            Registered(changes) == {"b.x"} && After(changes).Resolve("x") == Ambiguous(["b.x", "b.x"])
  {
    ExampleNames();
    assert Owners({}, "x") == {};
    AddedTwiceStaysAmbiguous([], "a.x", "b.x", "x");
    ReaddedRegistered([], "a.x", "b.x");
    assert {} + {"a.x"} + {"b.x"} - {"a.x"} == {"b.x"};
  }

  lemma ExampleNames()
    ensures "a.x" != "b.x" && Owns("a.x", "x") && Owns("b.x", "x")
  {
    assert "a.x"[0] != "b.x"[0];
    assert "a.x"[1..] == ".x" && "b.x"[1..] == ".x" && "." + "x" == ".x";
  }

  // Removing undoes adding.

  lemma EntriesDecide(a: Index, b: Index)
    requires Disjoint(a) && Disjoint(b)
    requires forall key :: EntryOf(a, key) == EntryOf(b, key)
    ensures a == b
  {
    forall key
      ensures key in a.collisions <==> key in b.collisions
      ensures key in a.abbreviations <==> key in b.abbreviations
      ensures key in a.collisions ==> a.collisions[key] == b.collisions[key]
      ensures key in a.abbreviations ==> a.abbreviations[key] == b.abbreviations[key]
    {
      assert EntryOf(a, key) == EntryOf(b, key);
      assert key in a.abbreviations ==> EntryOf(a, key).Sole?;
      assert key in b.abbreviations ==> EntryOf(b, key).Sole?;
    }
    assert a.abbreviations == b.abbreviations && a.collisions == b.collisions;
  }

  lemma FreedUndoesBound(e: Entry, owners: set<string>, f: string)
    requires SoundEntry(e, owners) && f !in owners
    ensures Freed(Bound(e, f), f) == e
  {
    match e {
      case Free =>
      case Sole(existing) =>
        WithoutSnoc([existing], f, f);
        WithoutMembers([existing], f);
        assert [existing] + [f] == [existing, f];
      case Contended(fs) =>
        WithoutSnoc(fs, f, f);
        WithoutMembers(fs, f);
    }
  }

  /** Removing a name that was not registered before it was added restores both maps, candidate order included. */
  lemma RemoveUndoesAdd(changes: seq<Change>, f: string)
    requires f !in Registered(changes)
    ensures After(changes).Add(f).Remove(f) == After(changes)
  {
    var idx, names := After(changes), Registered(changes);
    RunSound(changes);
    AddSound(idx, names, f);
    RemoveSound(idx.Add(f), names + {f}, f);
    forall key
      ensures EntryOf(idx.Add(f).Remove(f), key) == EntryOf(idx, key)
    {
      AddEntry(idx, f, key);
      RemoveEntry(idx.Add(f), f, key);
      assert SoundEntry(EntryOf(idx, key), Owners(names, key));
      FreedUndoesBound(EntryOf(idx, key), Owners(names, key), f);
    }
    EntriesDecide(idx.Add(f).Remove(f), idx);
  }
}
