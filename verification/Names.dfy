/** Dotted names and the shorter keys they own (suffixesOf in spored/internal/bus/abbreviation.go). */
module Names {
  import opened Text
  import opened Lists
  import opened Splitting

  function Segments(name: string): (ss: seq<string>)
    ensures |ss| > 0
  {
    SplitOn(name, '.')
  }

  /** From the last segment alone up to all of them, joined by dots. */
  function Tails(segments: seq<string>): seq<string> {
    if segments == [] then [] else Tails(segments[1..]) + [Join(segments, ".")]
  }

  function Suffixes(fqname: string): seq<string> {
    Tails(Segments(fqname))
  }

  /** `key` is `name` itself or what follows one of its dots. */
  predicate Owns(name: string, key: string) {
    name == key || HasSuffix(name, "." + key)
  }

  method SuffixesOf(fqname: string) returns (keys: seq<string>)
    ensures keys == Suffixes(fqname)
  {
    var segments := Segments(fqname);
    keys := [];
    var i := |segments| - 1;
    while i >= 0
      invariant -1 <= i < |segments|
      invariant keys == Tails(segments[i + 1..])
    {
      assert segments[i..][1..] == segments[i + 1..];
      keys := keys + [Join(segments[i..], ".")];
      i := i - 1;
    }
  }

  lemma DotOfSuffix(s: string, key: string)
    ensures HasSuffix(s, "." + key) ==> |key| < |s| && s[|s| - |key| - 1] == '.'
  {
  }

  lemma OwnsTransitive(a: string, b: string, c: string)
    requires Owns(a, b) && Owns(b, c)
    ensures Owns(a, c)
  {
    if a != b && b != c {
      var i, j := |a| - |b| - 1, |b| - |c| - 1;
      assert a[i..] == "." + b && b[j..] == "." + c;
      assert a[i..][1 + j..] == b[j..];
      assert a[i + 1 + j..] == a[i..][1 + j..];
    }
  }

  /** A suffix of a dotted text is all of it, or a suffix of what follows its first segment. */
  lemma OwnsBehind(s: string, rest: string, key: string)
    requires '.' !in s
    ensures Owns(s + "." + rest, key) <==> key == s + "." + rest || Owns(rest, key)
  {
    var name := s + "." + rest;
    var k := |name| - |key| - 1;
    DotOfSuffix(name, key);
    if HasSuffix(name, "." + key) {
      assert k >= |s| by {
        assert forall i :: 0 <= i < |s| ==> name[i] != '.';
      }
      assert name[k + 1..] == key && name[|s| + 1..] == rest;
      if k > |s| {
        assert rest[k - |s| - 1..] == name[k..];
      }
    }
    if rest == key {
      assert name[|s|..] == "." + key;
    } else if HasSuffix(rest, "." + key) {
      assert name[k..] == rest[k - |s| - 1..];
    }
  }

  lemma DotFreeOwns(s: string, key: string)
    requires '.' !in s
    ensures Owns(s, key) <==> key == s
  {
    DotOfSuffix(s, key);
  }

  lemma {:induction false} TailsOwned(ss: seq<string>, key: string)
    requires |ss| > 0 && forall i :: 0 <= i < |ss| ==> '.' !in ss[i]
    ensures key in Tails(ss) <==> Owns(Join(ss, "."), key)
    decreases |ss|
  {
    if |ss| == 1 {
      DotFreeOwns(ss[0], key);
      assert Tails(ss) == [] + [ss[0]];
    } else {
      TailsOwned(ss[1..], key);
      OwnsBehind(ss[0], Join(ss[1..], "."), key);
    }
  }

  lemma {:induction false} TailsShort(ss: seq<string>)
    requires |ss| > 0
    ensures forall i :: 0 <= i < |Tails(ss)| ==> |Tails(ss)[i]| <= |Join(ss, ".")|
    ensures forall i, j :: 0 <= i < j < |Tails(ss)| ==> |Tails(ss)[i]| < |Tails(ss)[j]|
    decreases |ss|
  {
    if |ss| > 1 {
      TailsShort(ss[1..]);
    } else {
      assert Tails(ss) == [] + [ss[0]];
    }
  }

  /** The suffixes of a name are the keys it owns, each once and the shorter first. */
  lemma SuffixesAreOwned(name: string)
    ensures forall key :: key in Suffixes(name) <==> Owns(name, key)
    ensures forall i, j :: 0 <= i < j < |Suffixes(name)| ==> |Suffixes(name)[i]| < |Suffixes(name)[j]|
    ensures Distinct(Suffixes(name))
  {
    JoinSplit(name, '.');
    PartsFree(name, '.');
    TailsShort(Segments(name));
    forall key
      ensures key in Suffixes(name) <==> Owns(name, key)
    {
      TailsOwned(Segments(name), key);
    }
  }
}
