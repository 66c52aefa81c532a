/** The loose tokeniser and the reading of array values (utilities/parse/parse.go, out/array.go). */
module ArrayTokens {
  import opened Scanner
  import opened Wrappers

  datatype Group = Bare | Single | Double | DoubleEsc | Brace | Bracket | Paren(depth: nat)

  function Step(q: Group, c: char): Group {
    match q
    case Bare =>
      if c == '\'' then Single
      else if c == '"' then Double
      else if c == '{' then Brace
      else if c == '[' then Bracket
      else if c == '(' then Paren(1)
      else Bare
    case Single => if c == '\'' then Bare else Single
    case Double => if c == '\\' then DoubleEsc else if c == '"' then Bare else Double
    case DoubleEsc => Double
    case Brace => if c == '}' then Bare else Brace
    case Bracket => if c == ']' then Bare else Bracket
    case Paren(depth) =>
      if c == '(' then Paren(depth + 1)
      else if c == ')' then (if depth <= 1 then Bare else Paren(depth - 1))
      else q
  }

  predicate Blank(c: char) {
    c == ' ' || c == '\t'
  }

  predicate Cut(q: Group, c: char) {
    q.Bare? && Blank(c)
  }

  const LOOSE: Machine<Group> := Machine(Step, Cut)

  lemma LooseResets()
    ensures Resets(LOOSE, Bare)
  {
  }

  function NonEmpty(ps: seq<string>): seq<string> {
    if ps == [] then [] else (if ps[0] == "" then [] else [ps[0]]) + NonEmpty(ps[1..])
  }

  /** What was left open at the end of the text. */
  datatype Unclosed = SingleQuote | DoubleQuote | Object | Array | Call

  function UnclosedIn(q: Group): Unclosed
    requires !q.Bare?
  {
    match q
    case Single => SingleQuote
    case Double => DoubleQuote
    case DoubleEsc => DoubleQuote
    case Brace => Object
    case Bracket => Array
    case Paren(_) => Call
  }

  datatype Outcome = Tokens(tokens: seq<string>) | Unterminated(what: Unclosed)

  /** The non-empty texts between top-level blanks, unless a group is left open. */
  function Tokenized(raw: string): Outcome {
    var q := Run(LOOSE, Bare, raw);
    if q.Bare? then Tokens(NonEmpty(Pieces(LOOSE, Bare, raw)))
    else Unterminated(UnclosedIn(q))
  }

  lemma {:induction false} NonEmptySnoc(ps: seq<string>, p: string)
    ensures NonEmpty(ps + [p]) == NonEmpty(ps) + if p == "" then [] else [p]
    decreases |ps|
  {
    if ps == [] {
      assert [] + [p] == [p] && [p][1..] == [];
    } else {
      assert (ps + [p])[1..] == ps[1..] + [p];
      NonEmptySnoc(ps[1..], p);
    }
  }

  /** `raw[..i]` has been read up to state `q`; `buf` is the token in hand. */
  ghost predicate Reading(raw: string, i: nat, q: Group, tokens: seq<string>, buf: string) {
    && i <= |raw|
    && Run(LOOSE, Bare, raw[..i]) == q
    && var ps := Pieces(LOOSE, Bare, raw[..i]);
       tokens == NonEmpty(ps[..|ps| - 1]) && buf == ps[|ps| - 1]
  }

  /** One turn of a reading loop. */
  lemma ReadTurn(raw: string, i: nat, q: Group, tokens: seq<string>, buf: string)
    requires i < |raw| && Reading(raw, i, q, tokens, buf)
    ensures if Cut(q, raw[i]) then
              Reading(raw, i + 1, Bare, tokens + if buf == "" then [] else [buf], "")
            else
              Reading(raw, i + 1, Step(q, raw[i]), tokens, buf + [raw[i]])
  {
    assert raw[..i + 1] == raw[..i] + [raw[i]];
    PiecesSnoc(LOOSE, Bare, raw[..i], raw[i]);
    PiecesGrow(Pieces(LOOSE, Bare, raw[..i]), raw[i]);
  }

  /** A new last piece, or a longer one, and the finished tokens before it. */
  lemma PiecesGrow(ps: seq<string>, c: char)
    requires ps != []
    ensures var n := |ps| - 1;
            var next, grown := ps + [""], ps[..n] + [ps[n] + [c]];
            && NonEmpty(next[..|next| - 1]) == NonEmpty(ps[..n]) + (if ps[n] == "" then [] else [ps[n]])
            && next[|next| - 1] == ""
            && grown[..|grown| - 1] == ps[..n] && grown[|grown| - 1] == ps[n] + [c]
  {
    var n := |ps| - 1;
    NonEmptySnoc(ps[..n], ps[n]);
    assert ps == ps[..n] + [ps[n]];
    LastOff(ps, "");
    LastOff(ps[..n], ps[n] + [c]);
  }

  lemma LastOff(ps: seq<string>, last: string)
    ensures (ps + [last])[..|ps + [last]| - 1] == ps && (ps + [last])[|ps + [last]| - 1] == last
  {
  }

  lemma ReadAll(raw: string, i: nat, q: Group, tokens: seq<string>, buf: string)
    requires i == |raw| && Reading(raw, i, q, tokens, buf)
    ensures q == Run(LOOSE, Bare, raw)
    ensures q == Bare ==> Tokenized(raw) == Tokens(tokens + if buf == "" then [] else [buf])
  {
    assert raw[..i] == raw;
    var ps := Pieces(LOOSE, Bare, raw);
    assert ps == ps[..|ps| - 1] + [buf];
    NonEmptySnoc(ps[..|ps| - 1], buf);
  }

  /** Reads a group without nesting up to its closing character; `i` stops there or at the end. */
  method ReadFlat(raw: string, start: nat, q: Group, close: char, tokens: seq<string>, head: string)
    returns (i: nat, buf: string)
    requires Reading(raw, start, q, tokens, head)
    requires (q == Single && close == '\'') || (q == Brace && close == '}') || (q == Bracket && close == ']')
    ensures Reading(raw, i, q, tokens, buf) && start <= i
    ensures i < |raw| ==> raw[i] == close
  {
    i, buf := start, head;
    while i < |raw| && raw[i] != close
      invariant start <= i && Reading(raw, i, q, tokens, buf)
    {
      ReadTurn(raw, i, q, tokens, buf);
      buf := buf + [raw[i]];
      i := i + 1;
    }
  }

  method ReadDouble(raw: string, start: nat, tokens: seq<string>, head: string)
    returns (i: nat, buf: string, ghost q: Group)
    requires Reading(raw, start, Double, tokens, head)
    ensures Reading(raw, i, q, tokens, buf) && start <= i
    ensures if i < |raw| then q == Double && raw[i] == '"' else q == Double || q == DoubleEsc
  {
    i, buf, q := start, head, Double;
    while i < |raw|
      invariant start <= i && Reading(raw, i, q, tokens, buf)
      invariant q == Double || (q == DoubleEsc && i == |raw|)
    {
      if raw[i] == '\\' && i + 1 < |raw| {
        ReadTurn(raw, i, q, tokens, buf);
        ReadTurn(raw, i + 1, DoubleEsc, tokens, buf + [raw[i]]);
        buf := buf + [raw[i]] + [raw[i + 1]];
        i := i + 2;
      } else if raw[i] == '"' {
        break;
      } else {
        ReadTurn(raw, i, q, tokens, buf);
        q := Step(q, raw[i]);
        buf := buf + [raw[i]];
        i := i + 1;
      }
    }
  }

  method ReadParens(raw: string, start: nat, tokens: seq<string>, head: string)
    returns (i: nat, depth: nat, buf: string)
    requires Reading(raw, start, Paren(1), tokens, head)
    ensures start <= i
    ensures Reading(raw, i, if depth == 0 then Bare else Paren(depth), tokens, buf)
    ensures depth > 0 ==> i == |raw|
  {
    i, depth, buf := start, 1, head;
    while i < |raw| && depth > 0
      invariant start <= i
      invariant Reading(raw, i, if depth == 0 then Bare else Paren(depth), tokens, buf)
    {
      ReadTurn(raw, i, Paren(depth), tokens, buf);
      match raw[i] {
        case '(' => depth := depth + 1;
        case ')' => depth := depth - 1;
        case _ =>
      }
      buf := buf + [raw[i]];
      i := i + 1;
    }
  }

  lemma LeftOpen(raw: string, i: nat, q: Group, tokens: seq<string>, buf: string)
    requires i == |raw| && Reading(raw, i, q, tokens, buf) && q != Bare
    ensures Tokenized(raw) == Unterminated(UnclosedIn(q))
  {
    ReadAll(raw, i, q, tokens, buf);
  }

  /** Reads the group opened by `open`, or finds that it is never closed. */
  method ReadGroup(raw: string, start: nat, open: char, tokens: seq<string>, head: string)
    returns (i: nat, buf: string, unclosed: Option<Unclosed>)
    requires !Step(Bare, open).Bare? && Reading(raw, start, Step(Bare, open), tokens, head)
    ensures start <= i
    ensures match unclosed
            case None => Reading(raw, i, Bare, tokens, buf)
            case Some(what) => Tokenized(raw) == Unterminated(what)
  {
    ghost var q := Step(Bare, open);
    if open == '(' {
      var depth;
      i, depth, buf := ReadParens(raw, start, tokens, head);
      if depth != 0 {
        LeftOpen(raw, i, Paren(depth), tokens, buf);
        return i, buf, Some(Call);
      }
      return i, buf, None;
    }
    var what := DoubleQuote;
    if open == '"' {
      i, buf, q := ReadDouble(raw, start, tokens, head);
    } else if open == '\'' {
      what := SingleQuote;
      i, buf := ReadFlat(raw, start, Single, '\'', tokens, head);
    } else if open == '{' {
      what := Object;
      i, buf := ReadFlat(raw, start, Brace, '}', tokens, head);
    } else {
      what := Array;
      i, buf := ReadFlat(raw, start, Bracket, ']', tokens, head);
    }
    if i >= |raw| {
      LeftOpen(raw, i, q, tokens, buf);
      return i, buf, Some(what);
    }
    ReadTurn(raw, i, q, tokens, buf);
    return i + 1, buf + [raw[i]], None;
  }

  method Tokenize(raw: string) returns (r: Outcome)
    ensures r == Tokenized(raw)
  {
    var tokens: seq<string>, buf, i: nat := [], "", 0;
    while i < |raw|
      invariant i <= |raw| && Reading(raw, i, Bare, tokens, buf)
    {
      var ch := raw[i];
      ReadTurn(raw, i, Bare, tokens, buf);
      i := i + 1;
      match ch {
        case ' ' | '\t' =>
          if |buf| > 0 {
            tokens := tokens + [buf];
            buf := "";
          }
        case '\'' | '"' | '{' | '[' | '(' =>
          var unclosed;
          i, buf, unclosed := ReadGroup(raw, i, ch, tokens, buf + [ch]);
          if unclosed.Some? {
            return Unterminated(unclosed.value);
          }
        case _ =>
          buf := buf + [ch];
      }
    }
    ReadAll(raw, i, Bare, tokens, buf);
    if |buf| > 0 {
      tokens := tokens + [buf];
    }
    return Tokens(tokens);
  }
}
