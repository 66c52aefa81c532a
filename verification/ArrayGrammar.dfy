/**
 What the loose tokeniser takes for a token, told without it: a text is read as characters,
 quoted parts and groups, and a blank counts outside all of them
 (tokenize in spored/internal/utilities/parse/parse.go).
 */
module ArrayGrammar {
  import opened Text
  import opened Lists
  import opened Scanner
  import opened ArrayTokens

  /** Objects and arrays end at their first closer; calls nest. */
  datatype Part =
    | Char(c: char)
    | SingleQuoted(text: string)
    | DoubleQuoted(text: string)
    | ObjectOf(text: string)
    | ArrayOf(text: string)
    | CallOf(text: string)

  function Show(p: Part): string {
    match p
    case Char(c) => [c]
    case SingleQuoted(t) => "'" + t + "'"
    case DoubleQuoted(t) => "\"" + t + "\""
    case ObjectOf(t) => "{" + t + "}"
    case ArrayOf(t) => "[" + t + "]"
    case CallOf(t) => "(" + t + ")"
  }

  function ShowAll(ps: seq<Part>): string {
    if ps == [] then "" else Show(ps[0]) + ShowAll(ps[1..])
  }

  /** Inside `depth` parentheses the text stays inside one, and at its end there is one left. */
  predicate Balanced(t: string, depth: nat) {
    if t == "" then depth == 1
    else if t[0] == '(' then Balanced(t[1..], depth + 1)
    else if t[0] == ')' then depth > 1 && Balanced(t[1..], depth - 1)
    else Balanced(t[1..], depth)
  }

  /** Inside `depth` parentheses the text never leaves the last one. */
  predicate StaysInside(t: string, depth: nat) {
    if t == "" then depth >= 1
    else if t[0] == '(' then StaysInside(t[1..], depth + 1)
    else if t[0] == ')' then depth > 1 && StaysInside(t[1..], depth - 1)
    else StaysInside(t[1..], depth)
  }

  predicate Fits(p: Part) {
    match p
    case Char(c) => c !in "'\"{[("
    case SingleQuoted(t) => '\'' !in t
    case DoubleQuoted(t) => Escaped(t)
    case ObjectOf(t) => '}' !in t
    case ArrayOf(t) => ']' !in t
    case CallOf(t) => Balanced(t, 1)
  }

  predicate Proper(ps: seq<Part>) {
    forall i :: 0 <= i < |ps| ==> Fits(ps[i])
  }

  predicate IsBlank(p: Part) {
    p == Char(' ') || p == Char('\t')
  }

  /** The texts between the blanks. */
  function BetweenBlanks(ps: seq<Part>): (ss: seq<string>)
    ensures |ss| > 0
  {
    if ps == [] then [""]
    else
      var rest := BetweenBlanks(ps[1..]);
      if IsBlank(ps[0]) then [""] + rest else [Show(ps[0]) + rest[0]] + rest[1..]
  }

  // The tokeniser over the parts.

  ghost predicate Reads(q: Group, s: string, q': Group) {
    Uncut(LOOSE, q, s) && Run(LOOSE, q, s) == q'
  }

  lemma ReadsOn(q: Group, a: string, q1: Group, b: string, q2: Group)
    requires Reads(q, a, q1) && Reads(q1, b, q2)
    ensures Reads(q, a + b, q2)
  {
    UncutConcat(LOOSE, q, a, b);
    RunConcat(LOOSE, q, a, b);
  }

  lemma ReadsOne(q: Group, c: char)
    requires !Cut(q, c)
    ensures Reads(q, [c], Step(q, c))
  {
  }

  lemma {:induction false} ReadsFlat(q: Group, close: char, t: string)
    requires (q == Single && close == '\'') || (q == Brace && close == '}') || (q == Bracket && close == ']')
    requires close !in t
    ensures Reads(q, t, q)
    decreases |t|
  {
    if t != "" {
      assert Step(q, t[0]) == q;
      ReadsFlat(q, close, t[1..]);
    }
  }

  lemma {:induction false} ReadsDouble(t: string)
    requires Escaped(t)
    ensures Reads(Double, t, Double)
    decreases |t|
  {
    if t != "" {
      if t[0] == '\\' {
        ReadsDouble(t[2..]);
        assert t[1..][1..] == t[2..] && t[1..][0] == t[1];
      } else {
        ReadsDouble(t[1..]);
      }
    }
  }

  lemma {:induction false} ReadsCall(t: string, depth: nat)
    requires depth >= 1 && Balanced(t, depth)
    ensures Reads(Paren(depth), t, Paren(1))
    decreases |t|
  {
    if t != "" {
      var next := if t[0] == '(' then depth + 1 else if t[0] == ')' then depth - 1 else depth;
      assert Step(Paren(depth), t[0]) == Paren(next);
      ReadsCall(t[1..], next);
    }
  }

  /** A group is read from its opener to its closer. */
  lemma GroupReads(open: char, t: string, close: char, q: Group)
    requires Step(Bare, open) == q && !Cut(Bare, open) && Reads(q, t, q)
    requires !Cut(q, close) && Step(q, close) == Bare
    ensures Reads(Bare, [open] + t + [close], Bare)
  {
    ReadsOne(Bare, open);
    ReadsOn(Bare, [open], q, t, q);
    ReadsOne(q, close);
    ReadsOn(Bare, [open] + t, q, [close], Bare);
  }

  /** A part is a blank that cuts, or it is read without a cut. */
  lemma PartReads(p: Part)
    requires Fits(p)
    ensures if IsBlank(p) then Cut(Bare, p.c) && Step(Bare, p.c) == Bare else Reads(Bare, Show(p), Bare)
  {
    match p {
      case Char(c) =>
        if !IsBlank(p) {
          ReadsOne(Bare, c);
        }
      case SingleQuoted(t) =>
        ReadsFlat(Single, '\'', t);
        GroupReads('\'', t, '\'', Single);
      case DoubleQuoted(t) =>
        ReadsDouble(t);
        GroupReads('"', t, '"', Double);
      case ObjectOf(t) =>
        ReadsFlat(Brace, '}', t);
        GroupReads('{', t, '}', Brace);
      case ArrayOf(t) =>
        ReadsFlat(Bracket, ']', t);
        GroupReads('[', t, ']', Bracket);
      case CallOf(t) =>
        ReadsCall(t, 1);
        GroupReads('(', t, ')', Paren(1));
    }
  }

  lemma {:induction false} PartsGivePieces(ps: seq<Part>)
    requires Proper(ps)
    ensures Run(LOOSE, Bare, ShowAll(ps)) == Bare
    ensures Pieces(LOOSE, Bare, ShowAll(ps)) == BetweenBlanks(ps)
    decreases |ps|
  {
    if ps != [] {
      var p, rest := ps[0], ShowAll(ps[1..]);
      PartReads(p);
      PartsGivePieces(ps[1..]);
      RunConcat(LOOSE, Bare, Show(p), rest);
      if IsBlank(p) {
        LooseResets();
        SeparatorFirst(LOOSE, Bare, Bare, p.c, rest);
        assert Run(LOOSE, Bare, [p.c]) == Run(LOOSE, Bare, "");
      } else {
        PiecesBehind(LOOSE, Bare, Show(p), rest);
      }
    }
  }

  // Every text is made of such parts, but for a group left open at its end.

  /** The text opens a group and never closes it. */
  predicate LeftOpen(tail: string, what: Unclosed) {
    tail != "" &&
    var rest := tail[1..];
    match what
    case SingleQuote => tail[0] == '\'' && '\'' !in rest
    case DoubleQuote => tail[0] == '"' && NeverClosed(rest)
    case Object => tail[0] == '{' && '}' !in rest
    case Array => tail[0] == '[' && ']' !in rest
    case Call => tail[0] == '(' && StaysInside(rest, 1)
  }

  lemma {:induction false} FindCallEnd(s: string, depth: nat) returns (k: nat)
    requires depth >= 1 && !StaysInside(s, depth)
    ensures k < |s| && s[k] == ')' && Balanced(s[..k], depth)
    decreases |s|
  {
    if s[0] == ')' && depth == 1 {
      k := 0;
    } else {
      var next := if s[0] == '(' then depth + 1 else if s[0] == ')' then depth - 1 else depth;
      k := FindCallEnd(s[1..], next);
      k := k + 1;
      assert s[..k][1..] == s[1..][..k - 1];
    }
  }

  lemma Enclosed(s: string, k: nat)
    requires 1 <= |s| && k + 2 <= |s|
    ensures s == [s[0]] + s[1..][..k] + [s[1..][k]] + s[k + 2..]
  {
    assert s[1..][..k] == s[1..k + 1];
  }

  /** The first part of a text that does not leave a group open. */
  lemma FirstPart(s: string) returns (p: Part, rest: string)
    requires s != "" && forall what :: !LeftOpen(s, what)
    ensures s == Show(p) + rest && |rest| < |s| && Fits(p)
  {
    var k: nat := 0;
    assert !LeftOpen(s, SingleQuote) && !LeftOpen(s, DoubleQuote) && !LeftOpen(s, Object);
    assert !LeftOpen(s, Array) && !LeftOpen(s, Call);
    match s[0] {
      case '\'' =>
        k := FindMark(s[1..], '\'');
        p := SingleQuoted(s[1..][..k]);
      case '"' =>
        k := FindQuote(s[1..]);
        p := DoubleQuoted(s[1..][..k]);
      case '{' =>
        k := FindMark(s[1..], '}');
        p := ObjectOf(s[1..][..k]);
      case '[' =>
        k := FindMark(s[1..], ']');
        p := ArrayOf(s[1..][..k]);
      case '(' =>
        k := FindCallEnd(s[1..], 1);
        p := CallOf(s[1..][..k]);
      case c =>
        assert s == [c] + s[1..];
        p, rest := Char(c), s[1..];
        return;
    }
    rest := s[k + 2..];
    Enclosed(s, k);
  }

  ghost predicate Tail(tail: string) {
    tail == "" || exists what :: LeftOpen(tail, what)
  }

  lemma {:induction false} TextParts(s: string) returns (ps: seq<Part>, tail: string)
    ensures s == ShowAll(ps) + tail && Proper(ps) && Tail(tail)
    decreases |s|
  {
    if Tail(s) {
      ps, tail := [], s;
      assert "" + s == s;
    } else {
      var p, rest := FirstPart(s);
      var more;
      more, tail := TextParts(rest);
      ps := [p] + more;
      assert ps[1..] == more;
      Reassociate(Show(p), ShowAll(more), tail);
    }
  }

  lemma {:induction false} DoubleLeftOpen(t: string)
    requires NeverClosed(t)
    ensures Run(LOOSE, Double, t) == Double || Run(LOOSE, Double, t) == DoubleEsc
    decreases |t|
  {
    if t != "" {
      if t[0] == '\\' && |t| > 1 {
        DoubleLeftOpen(t[2..]);
        assert t[1..][1..] == t[2..] && t[1..][0] == t[1];
      } else if t[0] == '\\' {
        assert t[1..] == "";
      } else {
        DoubleLeftOpen(t[1..]);
      }
    }
  }

  lemma {:induction false} CallLeftOpen(t: string, depth: nat)
    requires depth >= 1 && StaysInside(t, depth)
    ensures Run(LOOSE, Paren(depth), t).Paren?
    decreases |t|
  {
    if t != "" {
      var next := if t[0] == '(' then depth + 1 else if t[0] == ')' then depth - 1 else depth;
      assert Step(Paren(depth), t[0]) == Paren(next);
      CallLeftOpen(t[1..], next);
    }
  }

  lemma TailReads(tail: string, what: Unclosed)
    requires LeftOpen(tail, what)
    ensures var q := Run(LOOSE, Bare, tail); !q.Bare? && UnclosedIn(q) == what
  {
    var rest := tail[1..];
    match what {
      case SingleQuote => ReadsFlat(Single, '\'', rest);
      case DoubleQuote => DoubleLeftOpen(rest);
      case Object => ReadsFlat(Brace, '}', rest);
      case Array => ReadsFlat(Bracket, ']', rest);
      case Call => CallLeftOpen(rest, 1);
    }
  }

  lemma {:induction false} NonEmptyFilled(ps: seq<string>)
    ensures NonEmpty(ps) == Filled(ps)
    decreases |ps|
  {
    if ps != [] {
      NonEmptyFilled(ps[1..]);
    }
  }

  /**
   Every text has its parts. Without a group left open its tokens are the non-empty texts
   between the blanks outside quotes and groups; with one, it is refused, and told which.
   */
  lemma TokenizedExact(s: string) returns (ps: seq<Part>, tail: string)
    ensures s == ShowAll(ps) + tail && Proper(ps) && Tail(tail)
    ensures tail == "" ==> Tokenized(s) == Tokens(Filled(BetweenBlanks(ps)))
    ensures forall what :: LeftOpen(tail, what) ==> Tokenized(s) == Unterminated(what)
  {
    ps, tail := TextParts(s);
    PartsGivePieces(ps);
    RunConcat(LOOSE, Bare, ShowAll(ps), tail);
    NonEmptyFilled(BetweenBlanks(ps));
    if tail == "" {
      assert ShowAll(ps) + "" == ShowAll(ps);
    }
    forall what | LeftOpen(tail, what)
      ensures Tokenized(s) == Unterminated(what)
    {
      TailReads(tail, what);
    }
  }
}
