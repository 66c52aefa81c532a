/** Splitting a text at every occurrence of one character (strings.Split). */
module Splitting {
  import opened Text
  import opened Scanner

  function Splitter(sep: char): Machine<()> {
    Machine((q: (), c: char) => (), (q: (), c: char) => c == sep)
  }

  function SplitOn(s: string, sep: char): (ss: seq<string>)
    ensures |ss| > 0
  {
    Pieces(Splitter(sep), (), s)
  }

  lemma {:induction false} UncutWithout(s: string, sep: char)
    requires sep !in s
    ensures Uncut(Splitter(sep), (), s)
    decreases s
  {
    if s != "" {
      UncutWithout(s[1..], sep);
    }
  }

  lemma {:induction false} OnlySepCuts(s: string, sep: char)
    ensures forall i :: 0 <= i < |Cuts(Splitter(sep), (), s)| ==> Cuts(Splitter(sep), (), s)[i] == sep
    decreases s
  {
    if s != "" {
      OnlySepCuts(s[1..], sep);
    }
  }

  /** Joining the parts gives back the text. */
  lemma JoinSplit(s: string, sep: char)
    ensures Join(SplitOn(s, sep), [sep]) == s
  {
    PiecesWeave(Splitter(sep), (), s);
    OnlySepCuts(s, sep);
    WeaveIsJoin(SplitOn(s, sep), Cuts(Splitter(sep), (), s), sep);
  }

  /** No part holds the separator. */
  lemma {:induction false} PartsFree(s: string, sep: char)
    ensures forall i :: 0 <= i < |SplitOn(s, sep)| ==> sep !in SplitOn(s, sep)[i]
    decreases |s|
  {
    if s != "" {
      PartsFree(s[1..], sep);
      var rest, ss := SplitOn(s[1..], sep), SplitOn(s, sep);
      if s[0] == sep {
        assert ss == [""] + rest;
      } else {
        assert ss == [[s[0]] + rest[0]] + rest[1..];
      }
    }
  }

  lemma SplitFirst(part: string, rest: string, sep: char)
    requires sep !in part
    ensures SplitOn(part + [sep] + rest, sep) == [part] + SplitOn(rest, sep)
  {
    UncutWithout(part, sep);
    PiecesFirst(Splitter(sep), (), (), part, sep, rest);
  }

  lemma SplitNone(s: string, sep: char)
    requires sep !in s
    ensures SplitOn(s, sep) == [s]
  {
    UncutWithout(s, sep);
    UncutIsOnePiece(Splitter(sep), (), s);
  }

  lemma SplitConcat(a: string, b: string, sep: char)
    ensures SplitOn(a + b, sep) == Glue(SplitOn(a, sep), SplitOn(b, sep))
  {
    PiecesConcat(Splitter(sep), (), a, b);
  }

  /** A separator between two texts splits them apart. */
  lemma SplitBetween(a: string, b: string, sep: char)
    ensures SplitOn(a + [sep] + b, sep) == SplitOn(a, sep) + SplitOn(b, sep)
  {
    var ss := SplitOn(a, sep);
    assert a + [sep] + b == a + ("" + [sep] + b);
    SplitConcat(a, "" + [sep] + b, sep);
    SplitFirst("", b, sep);
    assert ss[|ss| - 1] + "" == ss[|ss| - 1];
    assert ss == ss[..|ss| - 1] + [ss[|ss| - 1]];
  }
}
