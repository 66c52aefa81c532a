/**
 Which spaces separate the tokens of a body, told without the scanner: a text is read as
 characters, quoted parts, and brackets of three kinds that nest; a space counts outside
 all of them (parseBody in spored/internal/spore/meta.go).
 */
module BodyGrammar {
  import opened Text
  import opened Lists
  import opened Scanner
  import opened BodyTokens
  import opened BodyLaws

  datatype Part = Char(c: char) | Quoted(mark: char, text: string) | Opening(kind: Closer) | Closing(kind: Closer)

  function Show(p: Part): string {
    match p
    case Char(c) => [c]
    case Quoted(m, t) => [m] + t + [m]
    case Opening(k) => (match k case Square => "[" case Curly => "{" case Angles => "<<")
    case Closing(k) => (match k case Square => "]" case Curly => "}" case Angles => ">>")
  }

  function ShowAll(ps: seq<Part>): string {
    if ps == [] then "" else Show(ps[0]) + ShowAll(ps[1..])
  }

  /** The brackets open behind the part, innermost last. */
  function Nested(open: seq<Closer>, p: Part): seq<Closer> {
    match p
    case Opening(k) => open + [k]
    case Closing(_) => if open == [] then [] else open[..|open| - 1]
    case _ => open
  }

  predicate Innermost(open: seq<Closer>, k: Closer) {
    open != [] && open[|open| - 1] == k
  }

  /**
   The part is one of the text that shows it and goes on with `rest`, inside the brackets
   `open`: quotes and openers are never single characters, nor is the closer of the innermost
   bracket; any other closer is. Only the mark that opened it closes a quoted part.
   */
  predicate Fits(p: Part, open: seq<Closer>, rest: string) {
    match p
    case Char(c) =>
      && c != '\'' && c != '"' && c != '[' && c != '{'
      && !(c == '<' && "<" <= rest)
      && !(c == ']' && Innermost(open, Square))
      && !(c == '}' && Innermost(open, Curly))
      && !(c == '>' && ">" <= rest && Innermost(open, Angles))
    case Quoted(m, t) => (m == '\'' || m == '"') && m !in t
    case Opening(_) => true
    case Closing(k) => Innermost(open, k)
  }

  predicate Proper(ps: seq<Part>, open: seq<Closer>) {
    ps == [] || (Fits(ps[0], open, ShowAll(ps[1..])) && Proper(ps[1..], Nested(open, ps[0])))
  }

  function OpenBehind(ps: seq<Part>, open: seq<Closer>): seq<Closer> {
    if ps == [] then open else OpenBehind(ps[1..], Nested(open, ps[0]))
  }

  /** The texts between the spaces that stand outside all quotes and brackets. */
  function BetweenSpaces(ps: seq<Part>, open: seq<Closer>): (ss: seq<string>)
    ensures |ss| > 0
  {
    if ps == [] then [""]
    else
      var rest := BetweenSpaces(ps[1..], Nested(open, ps[0]));
      if ps[0] == Char(' ') && open == [] then [""] + rest
      else [Show(ps[0]) + rest[0]] + rest[1..]
  }

  // The scanner over the parts.

  /** The scanner stands outside quotes, inside `open`, and `rest` does not complete a pair that it has begun to read. */
  ghost predicate Stands(q: Nesting, open: seq<Closer>, rest: string) {
    && q.quote == Unquoted && q.stack == open
    && (q.half == Lt ==> !("<" <= rest))
    && (q.half == Gt && Innermost(open, Angles) ==> !(">" <= rest))
  }

  ghost predicate Reads(q: Nesting, s: string, q': Nesting) {
    Uncut(BODY, q, s) && Run(BODY, q, s) == q'
  }

  lemma ReadsOn(q: Nesting, a: string, q1: Nesting, b: string, q2: Nesting)
    requires Reads(q, a, q1) && Reads(q1, b, q2)
    ensures Reads(q, a + b, q2)
  {
    UncutConcat(BODY, q, a, b);
    RunConcat(BODY, q, a, b);
  }

  lemma ReadsOne(q: Nesting, c: char)
    requires !Cut(q, c)
    ensures Reads(q, [c], Step(q, c))
  {
  }

  lemma {:induction false} ReadsQuoted(q: Nesting, t: string)
    requires q.quote.In? && q.quote.mark !in t && q.half == NoHalf
    ensures Reads(q, t, q)
    decreases |t|
  {
    if t != "" {
      assert Step(q, t[0]) == q;
      ReadsQuoted(q, t[1..]);
    }
  }

  lemma QuotedReads(q: Nesting, open: seq<Closer>, m: char, t: string, rest: string) returns (q': Nesting)
    requires Stands(q, open, [m] + t + [m] + rest)
    requires (m == '\'' || m == '"') && m !in t
    ensures Reads(q, [m] + t + [m], q') && Stands(q', open, rest)
  {
    var q1 := Step(q, m);
    ReadsOne(q, m);
    ReadsQuoted(q1, t);
    ReadsOn(q, [m], q1, t, q1);
    q' := Step(q1, m);
    ReadsOne(q1, m);
    ReadsOn(q, [m] + t, q1, [m], q');
  }

  lemma PairReads(q: Nesting, open: seq<Closer>, p: Part, rest: string) returns (q': Nesting)
    requires Stands(q, open, Show(p) + rest) && Fits(p, open, rest)
    requires p == Opening(Angles) || p == Closing(Angles)
    ensures Reads(q, Show(p), q') && Stands(q', Nested(open, p), rest)
  {
    var c := if p.Opening? then '<' else '>';
    var q1 := Step(q, c);
    ReadsOne(q, c);
    q' := Step(q1, c);
    ReadsOne(q1, c);
    ReadsOn(q, [c], q1, [c], q');
    assert Show(p) == [c] + [c];
  }

  lemma CharReads(q: Nesting, open: seq<Closer>, c: char, rest: string)
    requires Stands(q, open, [c] + rest) && Fits(Char(c), open, rest)
    ensures Cut(q, c) <==> c == ' ' && open == []
    ensures Stands(Step(q, c), open, rest)
  {
  }

  lemma BracketReads(q: Nesting, open: seq<Closer>, p: Part, rest: string)
    requires Stands(q, open, Show(p) + rest) && Fits(p, open, rest)
    requires (p.Opening? || p.Closing?) && p.kind != Angles
    ensures Reads(q, Show(p), Step(q, Show(p)[0])) && Stands(Step(q, Show(p)[0]), Nested(open, p), rest)
  {
    ReadsOne(q, Show(p)[0]);
  }

  /** A part is a space that cuts, or it is read without a cut. */
  lemma PartReads(q: Nesting, open: seq<Closer>, p: Part, rest: string) returns (q': Nesting)
    requires Stands(q, open, Show(p) + rest) && Fits(p, open, rest)
    ensures Stands(q', Nested(open, p), rest)
    ensures if p == Char(' ') && open == [] then Cut(q, ' ') && Step(q, ' ') == q' else Reads(q, Show(p), q')
  {
    match p {
      case Char(c) =>
        CharReads(q, open, c, rest);
        q' := Step(q, c);
        if !(c == ' ' && open == []) {
          ReadsOne(q, c);
        }
      case Quoted(m, t) => q' := QuotedReads(q, open, m, t, rest);
      case _ =>
        if p.kind == Angles {
          q' := PairReads(q, open, p, rest);
        } else {
          BracketReads(q, open, p, rest);
          q' := Step(q, Show(p)[0]);
        }
    }
  }

  lemma PiecesBehindSpace(q: Nesting, rest: string)
    requires Cut(q, ' ')
    ensures Step(q, ' ') == TOP && Pieces(BODY, q, " " + rest) == [""] + Pieces(BODY, TOP, rest)
  {
    BodyResets();
    SeparatorFirst(BODY, TOP, q, ' ', rest);
    assert BODY.step(q, ' ') == TOP;
  }

  /** Followed by a text that completes no pair, the parts give the pieces between their spaces. */
  lemma {:induction false} PartsGivePieces(ps: seq<Part>, q: Nesting, open: seq<Closer>, tail: string) returns (q': Nesting)
    requires Proper(ps, open) && Stands(q, open, ShowAll(ps) + tail)
    requires tail == "" || (tail[0] != '<' && tail[0] != '>')
    ensures Stands(q', OpenBehind(ps, open), tail)
    ensures Run(BODY, q, ShowAll(ps)) == q'
    ensures Pieces(BODY, q, ShowAll(ps)) == BetweenSpaces(ps, open)
    decreases |ps|
  {
    if ps == [] {
      q' := q;
      assert "" + tail == tail;
    } else {
      var p, rest := ps[0], ShowAll(ps[1..]);
      Reassociate(Show(p), rest, tail);
      FitsBefore(p, open, rest, tail);
      var q1 := PartReads(q, open, p, rest + tail);
      q' := PartsGivePieces(ps[1..], q1, Nested(open, p), tail);
      RunConcat(BODY, q, Show(p), rest);
      if p == Char(' ') && open == [] {
        PiecesBehindSpace(q, rest);
        assert Run(BODY, q, " ") == Run(BODY, q1, "");
      } else {
        PiecesBehind(BODY, q, Show(p), rest);
      }
    }
  }

  lemma FitsBefore(p: Part, open: seq<Closer>, rest: string, tail: string)
    requires Fits(p, open, rest) && (tail == "" || (tail[0] != '<' && tail[0] != '>'))
    ensures Fits(p, open, rest + tail)
  {
    if rest != "" {
      assert (rest + tail)[0] == rest[0];
    } else {
      assert rest + tail == tail;
    }
  }

  // Every text is made of such parts, but for a quote left open at its end.

  predicate Unclosed(tail: string) {
    tail == "" || ((tail[0] == '\'' || tail[0] == '"') && tail[0] !in tail[1..])
  }

  lemma FirstQuoted(s: string) returns (t: string, rest: string)
    requires s != "" && s[0] in s[1..]
    ensures s == Show(Quoted(s[0], t)) + rest && |rest| < |s| && s[0] !in t
  {
    var k := FindMark(s[1..], s[0]);
    t, rest := s[1..][..k], s[k + 2..];
    assert s == s[..1] + s[1..k + 1] + s[k + 1..k + 2] + s[k + 2..];
    assert s[1..k + 1] == t && s[..1] == [s[0]] && s[k + 1..k + 2] == [s[0]];
  }

  lemma FirstBracket(s: string, p: Part) returns (rest: string)
    requires (p.Opening? || p.Closing?) && Show(p) <= s
    ensures s == Show(p) + rest && |rest| < |s|
  {
    rest := s[|Show(p)|..];
  }

  /** What a text begins with that is neither a quoted part nor a bracket. */
  lemma FirstChar(s: string, open: seq<Closer>)
    requires s != "" && s[0] != '\'' && s[0] != '"' && s[0] != '[' && s[0] != '{' && !("<<" <= s)
    requires forall k :: Innermost(open, k) ==> !(Show(Closing(k)) <= s)
    ensures s == Show(Char(s[0])) + s[1..] && Fits(Char(s[0]), open, s[1..])
  {
    assert s == [s[0]] + s[1..];
    if |s| > 1 {
      assert s[1..][0] == s[1];
    }
    assert Innermost(open, Square) ==> !("]" <= s);
    assert Innermost(open, Curly) ==> !("}" <= s);
    assert Innermost(open, Angles) ==> !(">>" <= s);
  }

  lemma FirstPart(s: string, open: seq<Closer>) returns (p: Part, rest: string)
    requires !Unclosed(s)
    ensures s == Show(p) + rest && |rest| < |s| && Fits(p, open, rest)
  {
    if s[0] == '\'' || s[0] == '"' {
      var t;
      t, rest := FirstQuoted(s);
      p := Quoted(s[0], t);
    } else if open != [] && Show(Closing(open[|open| - 1])) <= s {
      p := Closing(open[|open| - 1]);
      rest := FirstBracket(s, p);
    } else if "<<" <= s {
      p := Opening(Angles);
      rest := FirstBracket(s, p);
    } else if s[0] == '[' || s[0] == '{' {
      p := Opening(if s[0] == '[' then Square else Curly);
      rest := FirstBracket(s, p);
    } else {
      FirstChar(s, open);
      p, rest := Char(s[0]), s[1..];
    }
  }

  lemma {:induction false} TextParts(s: string, open: seq<Closer>) returns (ps: seq<Part>, tail: string)
    ensures s == ShowAll(ps) + tail && Proper(ps, open) && Unclosed(tail)
    decreases |s|
  {
    if Unclosed(s) {
      ps, tail := [], s;
      assert "" + s == s;
    } else {
      var p, rest := FirstPart(s, open);
      var more;
      more, tail := TextParts(rest, Nested(open, p));
      ps := [p] + more;
      assert ps[1..] == more;
      Reassociate(Show(p), ShowAll(more), tail);
      ShorterFits(p, open, ShowAll(more), tail);
    }
  }

  lemma ShorterFits(p: Part, open: seq<Closer>, rest: string, tail: string)
    requires Fits(p, open, rest + tail)
    ensures Fits(p, open, rest)
  {
    if rest != "" {
      assert (rest + tail)[0] == rest[0];
    }
  }

  lemma TailReads(q: Nesting, open: seq<Closer>, tail: string)
    requires Stands(q, open, tail) && Unclosed(tail)
    ensures Uncut(BODY, q, tail)
  {
    if tail != "" {
      ReadsQuoted(Step(q, tail[0]), tail[1..]);
    }
  }

  lemma {:induction false} LocatedTexts(ps: seq<string>, at: nat)
    ensures Texts(Located(ps, at)) == Filled(ps)
    decreases |ps|
  {
    if ps != [] {
      var more := Located(ps[1..], at + |ps[0]| + 1);
      LocatedTexts(ps[1..], at + |ps[0]| + 1);
      if ps[0] == "" {
        assert [] + more == more;
      } else {
        assert Texts([Token(at, ps[0])] + more) == [ps[0]] + Texts(more);
      }
    }
  }

  /**
   Every body has its parts, and its pieces are the texts between the spaces outside their
   quotes and brackets; a quote left open goes to the end.
   */
  lemma PiecesExact(body: string) returns (ps: seq<Part>, tail: string)
    ensures body == ShowAll(ps) + tail && Proper(ps, []) && Unclosed(tail)
    ensures Pieces(BODY, TOP, body) == WithTail(BetweenSpaces(ps, []), tail)
  {
    ps, tail := TextParts(body, []);
    var q := PartsGivePieces(ps, TOP, [], tail);
    TailReads(q, OpenBehind(ps, []), tail);
    PiecesBefore(BODY, TOP, ShowAll(ps), tail);
  }

  /** The tokens are those texts, without the empty ones. */
  lemma TokensExact(body: string) returns (ps: seq<Part>, tail: string)
    ensures body == ShowAll(ps) + tail && Proper(ps, []) && Unclosed(tail)
    ensures Texts(Tokens(body)) == Filled(WithTail(BetweenSpaces(ps, []), tail))
  {
    ps, tail := PiecesExact(body);
    TokenTexts(body);
  }

  lemma TokenTexts(body: string)
    ensures Texts(Tokens(body)) == Filled(Pieces(BODY, TOP, body))
  {
    LocatedTexts(Pieces(BODY, TOP, body), 0);
  }

  /** A text that closes all its brackets, with no space outside them, is one token, and the space behind it ends it. */
  lemma FirstToken(ps: seq<Part>, rest: string)
    requires Proper(ps, []) && OpenBehind(ps, []) == [] && BetweenSpaces(ps, []) == [ShowAll(ps)] && ShowAll(ps) != ""
    ensures Texts(Tokens(ShowAll(ps) + " " + rest)) == [ShowAll(ps)] + Texts(Tokens(rest))
  {
    var q := PartsGivePieces(ps, TOP, [], " " + rest);
    UncutIsOnePiece(BODY, TOP, ShowAll(ps));
    FirstTokenOff(ShowAll(ps), rest);
  }
}
