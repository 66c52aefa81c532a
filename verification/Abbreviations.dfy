/** The index of shortened names (spored/internal/bus/abbreviation.go). */
module Abbreviations {
  import opened Names
  import opened Lists

  datatype Resolution = Found(fqname: string) | Ambiguous(candidates: seq<string>) | Missing

  /** The two maps: keys owned by one name, and the contending names of keys claimed by more. */
  datatype Index = Index(abbreviations: map<string, string>, collisions: map<string, seq<string>>) {

    function Bind(key: string, name: string): Index {
      if key in collisions then
        this.(collisions := collisions[key := collisions[key] + [name]])
      else if key in abbreviations then
        var existing := abbreviations[key];
        if existing == name then this
        else Index(abbreviations - {key}, collisions[key := [existing, name]])
      else this.(abbreviations := abbreviations[key := name])
    }

    function Unbind(key: string, name: string): Index {
      if key in collisions then
        var remaining := Without(collisions[key], name);
        if |remaining| == 0 then this.(collisions := collisions - {key})
        else if |remaining| == 1 then
          Index(abbreviations[key := remaining[0]], collisions - {key})
        else this.(collisions := collisions[key := remaining])
      else if key in abbreviations && abbreviations[key] == name then
        this.(abbreviations := abbreviations - {key})
      else this
    }

    function BindAll(keys: seq<string>, name: string): Index {
      if keys == [] then this else BindAll(keys[..|keys| - 1], name).Bind(keys[|keys| - 1], name)
    }

    function UnbindAll(keys: seq<string>, name: string): Index {
      if keys == [] then this else UnbindAll(keys[..|keys| - 1], name).Unbind(keys[|keys| - 1], name)
    }

    function Add(name: string): Index {
      BindAll(Suffixes(name), name)
    }

    function Remove(name: string): Index {
      UnbindAll(Suffixes(name), name)
    }

    function Resolve(key: string): Resolution {
      if key in collisions then Ambiguous(collisions[key])
      else if key in abbreviations then Found(abbreviations[key])
      else Missing
    }
  }

  const EMPTY := Index(map[], map[])

  method OthersOf(candidates: seq<string>, fqname: string) returns (remaining: seq<string>)
    ensures remaining == Without(candidates, fqname)
  {
    remaining := [];
    for i := 0 to |candidates|
      invariant remaining == Without(candidates[..i], fqname)
    {
      assert candidates[..i + 1] == candidates[..i] + [candidates[i]];
      WithoutSnoc(candidates[..i], candidates[i], fqname);
      if candidates[i] != fqname {
        remaining := remaining + [candidates[i]];
      }
    }
    assert candidates[..|candidates|] == candidates;
  }

  /** The index as the hub keeps it: two maps updated in place. */
  class AbbreviationIndex {
    var abbreviations: map<string, string>
    var collisions: map<string, seq<string>>

    function Value(): Index
      reads this
    {
      Index(abbreviations, collisions)
    }

    constructor ()
      ensures Value() == EMPTY
    {
      abbreviations, collisions := map[], map[];
    }

    method Add(fqname: string)
      modifies this
      ensures Value() == old(Value()).Add(fqname)
    {
      var keys := SuffixesOf(fqname);
      for i := 0 to |keys|
        invariant Value() == old(Value()).BindAll(keys[..i], fqname)
      {
        assert keys[..i + 1][..i] == keys[..i];
        Bind(keys[i], fqname);
      }
      assert keys[..|keys|] == keys;
    }

    method Remove(fqname: string)
      modifies this
      ensures Value() == old(Value()).Remove(fqname)
    {
      var keys := SuffixesOf(fqname);
      for i := 0 to |keys|
        invariant Value() == old(Value()).UnbindAll(keys[..i], fqname)
      {
        assert keys[..i + 1][..i] == keys[..i];
        Unbind(keys[i], fqname);
      }
      assert keys[..|keys|] == keys;
    }

    method Resolve(key: string) returns (r: Resolution)
      ensures r == Value().Resolve(key)
    {
      if key in collisions {
        return Ambiguous(collisions[key]);
      }
      if key in abbreviations {
        return Found(abbreviations[key]);
      }
      return Missing;
    }

    method Bind(key: string, fqname: string)
      modifies this
      ensures Value() == old(Value()).Bind(key, fqname)
    {
      if key in collisions {
        collisions := collisions[key := collisions[key] + [fqname]];
        return;
      }
      if key in abbreviations {
        var existing := abbreviations[key];
        if existing == fqname {
          return;
        }
        abbreviations := abbreviations - {key};
        collisions := collisions[key := [existing, fqname]];
        return;
      }
      abbreviations := abbreviations[key := fqname];
    }

    method Unbind(key: string, fqname: string)
      modifies this
      ensures Value() == old(Value()).Unbind(key, fqname)
    {
      if key in collisions {
        var remaining := OthersOf(collisions[key], fqname);
        if |remaining| == 0 {
          collisions := collisions - {key};
        } else if |remaining| == 1 {
          collisions := collisions - {key};
          abbreviations := abbreviations[key := remaining[0]];
        } else {
          collisions := collisions[key := remaining];
        }
        return;
      }
      if key in abbreviations && abbreviations[key] == fqname {
        abbreviations := abbreviations - {key};
      }
    }
  }
}
