/** The linear scan for a command name (matchCommand in spored/internal/spore/meta.go) and the index it must agree with. */
module NameScan {
  import opened Text
  import opened Names
  import opened Abbreviations
  import opened AbbreviationLaws
  import opened Lists
  import opened Manifests
  import opened Wrappers

  datatype Code = OK | NoMatches | Collision

  datatype Match = Match(manifest: Manifest, command: Command) {
    function FqName(): string {
      manifest.id + "." + command.name
    }
  }

  /** The first `n` commands of a manifest. */
  function AllIn(m: Manifest, n: nat): (ms: seq<Match>)
    requires n <= |m.api|
    ensures |ms| == n
    ensures forall i :: 0 <= i < n ==> ms[i] == Match(m, m.api[i])
  {
    seq(n, i requires 0 <= i < n => Match(m, m.api[i]))
  }

  /** Every command of every manifest, in scanning order. */
  function All(manifests: seq<Manifest>): seq<Match> {
    if manifests == [] then []
    else
      var n := |manifests| - 1;
      All(manifests[..n]) + AllIn(manifests[n], |manifests[n].api|)
  }

  function Matching(ms: seq<Match>, part: string): seq<Match> {
    if ms == [] then []
    else
      var n := |ms| - 1;
      Matching(ms[..n], part) + if Owns(ms[n].FqName(), part) then [ms[n]] else []
  }

  lemma ScanTurn(before: seq<Match>, m: Manifest, i: nat, part: string)
    requires i < |m.api|
    ensures var next := Match(m, m.api[i]);
            Matching(before + AllIn(m, i + 1), part) ==
            Matching(before + AllIn(m, i), part) + if Owns(next.FqName(), part) then [next] else []
  {
    var ms, next := before + AllIn(m, i), Match(m, m.api[i]);
    assert before + AllIn(m, i + 1) == ms + [next];
    assert (ms + [next])[..|ms|] == ms;
  }

  method MatchCommand(manifests: seq<Manifest>, part: string)
    returns (fm: Option<Manifest>, command: Option<Command>, code: Code)
    ensures var found := Matching(All(manifests), part);
            if |found| == 1 then fm == Some(found[0].manifest) && command == Some(found[0].command) && code == OK
            else fm == None && command == None && code == if found == [] then NoMatches else Collision
  {
    var last: Option<Manifest> := None;
    var found: seq<Command> := [];
    ghost var matches: seq<Match> := [];
    for k := 0 to |manifests|
      invariant matches == Matching(All(manifests[..k]), part)
      invariant Followed(matches, last, found)
    {
      var m := manifests[k];
      ghost var before := All(manifests[..k]);
      assert manifests[..k + 1][..k] == manifests[..k];
      assert before + AllIn(m, 0) == before;
      for i := 0 to |m.api|
        invariant matches == Matching(before + AllIn(m, i), part)
        invariant Followed(matches, last, found)
      {
        var fqName := m.id + "." + m.api[i].name;
        ScanTurn(before, m, i, part);
        FollowedMore(matches, last, found, m, m.api[i]);
        if fqName == part || HasSuffix(fqName, "." + part) {
          last := Some(m);
          found := found + [m.api[i]];
          matches := matches + [Match(m, m.api[i])];
        }
      }
    }
    assert manifests[..|manifests|] == manifests;
    if |found| == 1 {
      return last, Some(found[0]), OK;
    } else if |found| == 0 {
      return None, None, NoMatches;
    }
    return None, None, Collision;
  }

  /** The scan keeps the commands found and the manifest of the last one. */
  ghost predicate Followed(matches: seq<Match>, last: Option<Manifest>, found: seq<Command>) {
    && |found| == |matches|
    && (forall i :: 0 <= i < |found| ==> found[i] == matches[i].command)
    && (matches != [] ==> last == Some(matches[|matches| - 1].manifest))
  }

  lemma FollowedMore(matches: seq<Match>, last: Option<Manifest>, found: seq<Command>, m: Manifest, c: Command)
    requires Followed(matches, last, found)
    ensures Followed(matches + [Match(m, c)], Some(m), found + [c])
  {
  }

  function FqNamesOf(ms: seq<Match>): (ns: seq<string>)
    ensures |ns| == |ms|
    ensures forall i :: 0 <= i < |ms| ==> ns[i] == ms[i].FqName()
  {
    seq(|ms|, i requires 0 <= i < |ms| => ms[i].FqName())
  }

  lemma {:induction false} MatchingOwners(ms: seq<Match>, part: string, names: set<string>)
    requires Distinct(FqNamesOf(ms)) && names == set f | f in FqNamesOf(ms)
    ensures var fs := FqNamesOf(Matching(ms, part));
            Distinct(fs) && Owners(names, part) == set f | f in fs
    decreases |ms|
  {
    if ms != [] {
      var n := |ms| - 1;
      var before, f := FqNamesOf(ms[..n]), ms[n].FqName();
      var others := set g | g in before;
      assert FqNamesOf(ms) == before + [f];
      assert Distinct(before) && f !in before by {
        assert forall i :: 0 <= i < n ==> before[i] == FqNamesOf(ms)[i];
      }
      MatchingOwners(ms[..n], part, others);
      var fs := FqNamesOf(Matching(ms[..n], part));
      assert FqNamesOf(Matching(ms, part)) == fs + if Owns(f, part) then [f] else [];
      OwnersPlus(others, f, part);
      assert names == others + {f};
      assert f !in Owners(others, part);
    }
  }

  /** The index gives the scan's answer: the one match, none, or the same matches, each once. */
  predicate SameAnswer(r: Resolution, found: seq<string>) {
    match r
    case Found(f) => found == [f]
    case Missing => found == []
    case Ambiguous(fs) => |fs| == |found| >= 2 && multiset(fs) == multiset(found)
  }

  /**
   Index and scan over the same distinct names, after any run. A name the index finds is
   the scan's one match, they miss together, and an ambiguous key has the scan's matches
   for candidates. The answers are the same exactly when no name was doubled at the key:
   added again there beside another, and not removed since.
   */
  lemma ScanAgrees(manifests: seq<Manifest>, changes: seq<Change>, part: string)
    requires Distinct(FqNamesOf(All(manifests)))
    requires Registered(changes) == set f | f in FqNamesOf(All(manifests))
    ensures var found, r := FqNamesOf(Matching(All(manifests), part)), After(changes).Resolve(part);
            && (r.Found? ==> found == [r.fqname])
            && (r.Missing? <==> found == [])
            && (r.Ambiguous? ==> (set f | f in r.candidates) == (set f | f in found))
            && (SameAnswer(r, found) <==> Undoubled(changes, part))
  {
    MatchingOwners(All(manifests), part, Registered(changes));
    OwnersAnswer(changes, part, FqNamesOf(Matching(All(manifests), part)));
  }

  /** The same for any list of the key's owners. */
  lemma OwnersAnswer(changes: seq<Change>, part: string, found: seq<string>)
    requires Distinct(found) && Owners(Registered(changes), part) == set f | f in found
    ensures var r := After(changes).Resolve(part);
            && (r.Found? ==> found == [r.fqname])
            && (r.Missing? <==> found == [])
            && (r.Ambiguous? ==> (set f | f in r.candidates) == (set f | f in found))
            && (SameAnswer(r, found) <==> Undoubled(changes, part))
  {
    var owners := Owners(Registered(changes), part);
    ResolveExact(changes, part);
    ResolveSound(changes, part);
    DistinctCount(found);
    match After(changes).Resolve(part) {
      case Found(f) =>
        assert found[0] in owners;
        FoundUndoubled(changes, part, f);
      case Missing =>
        MissingUndoubled(changes, part);
      case Ambiguous(fs) =>
        SameLists(fs, found, owners);
    }
  }

  lemma MissingUndoubled(changes: seq<Change>, part: string)
    requires Owners(Registered(changes), part) == {}
    ensures Undoubled(changes, part)
  {
    forall f
      ensures !Doubled(changes, part, f)
    {
      DoubledOwns(changes, part, f);
    }
  }

  lemma FoundUndoubled(changes: seq<Change>, part: string, f: string)
    requires Owners(Registered(changes), part) == {f} && !Doubled(changes, part, f)
    ensures Undoubled(changes, part)
  {
    forall g
      ensures !Doubled(changes, part, g)
    {
      DoubledOwns(changes, part, g);
    }
  }

  /** Of two lists of the same names, the second without repeats, the first has none either exactly when they agree. */
  lemma SameLists(fs: seq<string>, found: seq<string>, names: set<string>)
    requires |fs| >= 2 && Distinct(found) && |names| == |found|
    requires names == (set f | f in fs) && names == (set f | f in found)
    ensures |fs| == |found| >= 2 && multiset(fs) == multiset(found) <==> Distinct(fs)
  {
    if Distinct(fs) {
      DistinctCount(fs);
      forall f
        ensures f in fs <==> f in found
      {
        assert f in fs <==> f in names;
        assert f in found <==> f in names;
      }
      SameDistinct(fs, found);
    } else if multiset(fs) == multiset(found) {
      var f := Repeated(fs);
      DistinctOnce(found, f);
    }
  }
}
