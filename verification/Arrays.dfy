/** Printing array values and reading them back (out/array.go, utilities/parse/parse.go). */
module Arrays {
  import opened Text
  import opened Scanner
  import opened Printing
  import opened ArrayTokens

  function Item(v: string): string {
    "\"" + v + "\""
  }

  function Items(vs: seq<string>): (ss: seq<string>)
    ensures |ss| == |vs|
    ensures forall i :: 0 <= i < |vs| ==> ss[i] == Item(vs[i])
  {
    seq(|vs|, i requires 0 <= i < |vs| => Item(vs[i]))
  }

  /** The part of a printed array after the key: "[", the quoted items, "]". */
  function ArrayText(vs: seq<string>): string {
    "[" + Join(Items(vs), ", ") + "]"
  }

  method RenderArraySlice(vs: seq<string>) returns (s: string)
    ensures "[" + s + "]" == ArrayText(vs)
  {
    var parts := new string[|vs|];
    for i := 0 to |vs|
      invariant forall j :: 0 <= j < i ==> parts[j] == Item(vs[j])
    {
      parts[i] := Item(vs[i]);
    }
    assert parts[..] == Items(vs);
    s := Join(parts[..], ", ");
  }

  function BlankCommas(s: string): (r: string)
    ensures |r| == |s|
    ensures forall i :: 0 <= i < |s| ==> r[i] == if s[i] == ',' then ' ' else s[i]
  {
    seq(|s|, i requires 0 <= i < |s| => if s[i] == ',' then ' ' else s[i])
  }

  function Unbracketed(s: string): string {
    var s1 := if "[" <= s then s[1..] else s;
    if HasSuffix(s1, "]") then s1[..|s1| - 1] else s1
  }

  function Unquoted(ts: seq<string>): (ss: seq<string>)
    ensures |ss| == |ts|
    ensures forall i :: 0 <= i < |ts| ==> ss[i] == UnquoteValue(ts[i])
  {
    seq(|ts|, i requires 0 <= i < |ts| => UnquoteValue(ts[i]))
  }

  /** The strings of a loosely written array; none when a group in it is left open. */
  function StringsOf(s: string): seq<string> {
    match Tokenized(BlankCommas(Unbracketed(Trim(s))))
    case Tokens(ts) => Unquoted(ts)
    case Unterminated(_) => []
  }

  method ArrayToStrings(s: string) returns (result: seq<string>)
    ensures result == StringsOf(s)
  {
    var text := Trim(s);
    if "[" <= text { text := text[1..]; }
    if HasSuffix(text, "]") { text := text[..|text| - 1]; }
    text := BlankCommas(text);
    var r := Tokenize(text);
    match r {
      case Unterminated(_) => result := [];
      case Tokens(tokens) =>
        NonEmptyTokens(Pieces(LOOSE, Bare, text));
        result := UnquoteAll(tokens);
    }
  }

  method UnquoteAll(tokens: seq<string>) returns (result: seq<string>)
    requires forall i :: 0 <= i < |tokens| ==> tokens[i] != ""
    ensures result == Unquoted(tokens)
  {
    result := [];
    for i := 0 to |tokens|
      invariant |result| == i
      invariant forall j :: 0 <= j < i ==> result[j] == UnquoteValue(tokens[j])
    {
      if tokens[i] != "" {
        result := result + [UnquoteValue(tokens[i])];
      }
    }
  }

  lemma {:induction false} NonEmptyTokens(ps: seq<string>)
    ensures forall i :: 0 <= i < |NonEmpty(ps)| ==> NonEmpty(ps)[i] != ""
    decreases |ps|
  {
    if ps != [] {
      NonEmptyTokens(ps[1..]);
    }
  }
}
