/** The tokens of a command body and the one under the cursor (spored/internal/spore/meta.go). */
module BodyTokens {
  import opened Scanner

  datatype Closer = Square | Curly | Angles

  datatype Quote = Unquoted | In(mark: char)

  /** The first character of a pair that may still turn out to be "<<" or ">>". */
  datatype Half = NoHalf | Lt | Gt

  datatype Nesting = Nesting(stack: seq<Closer>, quote: Quote, half: Half)

  const TOP := Nesting([], Unquoted, NoHalf)

  function Top(q: Nesting): Closer
    requires q.stack != []
  {
    q.stack[|q.stack| - 1]
  }

  function Push(q: Nesting, c: Closer): Nesting {
    Nesting(q.stack + [c], q.quote, NoHalf)
  }

  function Pop(q: Nesting): Nesting
    requires q.stack != []
  {
    Nesting(q.stack[..|q.stack| - 1], q.quote, NoHalf)
  }

  function Step(q: Nesting, c: char): Nesting {
    if q.quote.In? then
      Nesting(q.stack, if c == q.quote.mark then Unquoted else q.quote, NoHalf)
    else if q.stack != [] && ((Top(q) == Square && c == ']') || (Top(q) == Curly && c == '}')) then
      Pop(q)
    else if q.stack != [] && Top(q) == Angles && c == '>' then
      if q.half == Gt then Pop(q) else q.(half := Gt)
    else if c == '\'' || c == '"' then
      Nesting(q.stack, In(c), NoHalf)
    else if c == '[' then
      Push(q, Square)
    else if c == '{' then
      Push(q, Curly)
    else if c == '<' then
      if q.half == Lt then Push(q, Angles) else q.(half := Lt)
    else
      q.(half := NoHalf)
  }

  /** Outside quotes and brackets, where a space ends a token. */
  predicate Outside(q: Nesting) {
    q.quote.Unquoted? && q.stack == []
  }

  predicate Cut(q: Nesting, c: char) {
    c == ' ' && Outside(q)
  }

  const BODY: Machine<Nesting> := Machine(Step, Cut)

  lemma BodyResets()
    ensures Resets(BODY, TOP)
  {
  }

  datatype Token = Token(start: nat, text: string) {
    function End(): nat { start + |text| }

    /** The caret is in the token or right at either end of it. */
    predicate Holds(cursor: int) {
      start <= cursor <= End()
    }
  }

  /** The non-empty pieces, with their places in a text that has one space after each piece. */
  function Located(ps: seq<string>, at: nat): seq<Token> {
    if ps == [] then []
    else (if ps[0] == "" then [] else [Token(at, ps[0])]) + Located(ps[1..], at + |ps[0]| + 1)
  }

  function Tokens(body: string): seq<Token> {
    Located(Pieces(BODY, TOP, body), 0)
  }

  function Texts(ts: seq<Token>): (ss: seq<string>)
    ensures |ss| == |ts|
    ensures forall i :: 0 <= i < |ts| ==> ss[i] == ts[i].text
  {
    seq(|ts|, i requires 0 <= i < |ts| => ts[i].text)
  }

  /** The place of the first token that holds the cursor, or the number of tokens. */
  function Holder(ts: seq<Token>, cursor: int): (k: nat)
    ensures k <= |ts|
    ensures k < |ts| ==> ts[k].Holds(cursor)
  {
    if ts == [] || ts[0].Holds(cursor) then 0 else 1 + Holder(ts[1..], cursor)
  }

  /** The text of the token the cursor is in; failing that, of the last token. */
  function Reported(ts: seq<Token>, cursor: int): string {
    var k := Holder(ts, cursor);
    if k < |ts| then ts[k].text else if ts == [] then "" else ts[|ts| - 1].text
  }

  lemma {:induction false} HolderSnoc(ts: seq<Token>, t: Token, cursor: int)
    ensures Holder(ts + [t], cursor) ==
            if Holder(ts, cursor) < |ts| then Holder(ts, cursor)
            else if t.Holds(cursor) then |ts| else |ts| + 1
    decreases |ts|
  {
    if ts != [] {
      assert (ts + [t])[1..] == ts[1..] + [t];
      HolderSnoc(ts[1..], t, cursor);
    }
  }

  function Width(ps: seq<string>): nat {
    if ps == [] then 0 else |ps[0]| + 1 + Width(ps[1..])
  }

  lemma LocatedOne(p: string, at: nat)
    ensures Located([p], at) == if p == "" then [] else [Token(at, p)]
    ensures Width([p]) == |p| + 1
  {
    assert [p][1..] == [];
  }

  lemma LocatedFirst(ps: seq<string>, at: nat)
    requires ps != []
    ensures Located(ps, at) == (if ps[0] == "" then [] else [Token(at, ps[0])]) + Located(ps[1..], at + |ps[0]| + 1)
    ensures Width(ps) == |ps[0]| + 1 + Width(ps[1..])
  {
  }

  lemma Reassociated(a: seq<Token>, b: seq<Token>, c: seq<Token>)
    ensures a + (b + c) == (a + b) + c
  {
  }

  lemma {:induction false} LocatedSnoc(ps: seq<string>, p: string, at: nat)
    ensures Located(ps + [p], at) ==
            Located(ps, at) + if p == "" then [] else [Token(at + Width(ps), p)]
    ensures Width(ps + [p]) == Width(ps) + |p| + 1
    decreases |ps|
  {
    if ps == [] {
      LocatedOne(p, at);
      assert [] + [p] == [p];
    } else {
      var rest, next := ps[1..], at + |ps[0]| + 1;
      assert (ps + [p])[0] == ps[0] && (ps + [p])[1..] == rest + [p];
      LocatedFirst(ps, at);
      LocatedFirst(ps + [p], at);
      LocatedSnoc(rest, p, next);
      Reassociated(if ps[0] == "" then [] else [Token(at, ps[0])], Located(rest, next),
                   if p == "" then [] else [Token(next + Width(rest), p)]);
    }
  }

  ghost predicate Tracks(q: Nesting, body: string, i: nat, stack: seq<Closer>, quote: Quote)
    requires i <= |body|
  {
    && q.stack == stack && q.quote == quote
    && (i < |body| ==> !(q.half == Lt && body[i] == '<'))
    && (i < |body| ==> !(q.half == Gt && body[i] == '>'))
  }

  /** The loop has read `body[..i]` into finished pieces and the text of the current one. */
  ghost predicate Scanned(body: string, i: nat, stack: seq<Closer>, quote: Quote, done: seq<string>, current: string) {
    && i <= |body|
    && Tracks(Run(BODY, TOP, body[..i]), body, i, stack, quote)
    && Pieces(BODY, TOP, body[..i]) == done + [current]
    && i == Width(done) + |current|
    && (current == "" ==> quote == Unquoted && stack == [])
  }

  /** Whether a token so far holds the cursor, and the text of such a token. */
  ghost predicate Picked(ts: seq<Token>, cursor: int, found: bool, part: string) {
    var k := Holder(ts, cursor);
    found == (k < |ts|) && part == if found then ts[k].text else ""
  }

  lemma Advance(body: string, i: nat, done: seq<string>, current: string)
    requires i < |body| && Pieces(BODY, TOP, body[..i]) == done + [current]
    ensures Run(BODY, TOP, body[..i + 1]) == Step(Run(BODY, TOP, body[..i]), body[i])
    ensures Pieces(BODY, TOP, body[..i + 1]) ==
            if Cut(Run(BODY, TOP, body[..i]), body[i]) then done + [current] + [""]
            else done + [current + [body[i]]]
  {
    assert body[..i + 1] == body[..i] + [body[i]];
    PiecesSnoc(BODY, TOP, body[..i], body[i]);
    assert (done + [current])[..|done|] == done;
  }

  lemma AdvanceTwo(body: string, i: nat, done: seq<string>, current: string)
    requires i + 1 < |body| && Pieces(BODY, TOP, body[..i]) == done + [current]
    requires var q := Run(BODY, TOP, body[..i]); !Cut(q, body[i]) && !Cut(Step(q, body[i]), body[i + 1])
    ensures Run(BODY, TOP, body[..i + 2]) == Step(Step(Run(BODY, TOP, body[..i]), body[i]), body[i + 1])
    ensures Pieces(BODY, TOP, body[..i + 2]) == done + [current + [body[i]] + [body[i + 1]]]
  {
    Advance(body, i, done, current);
    Advance(body, i + 1, done, current + [body[i]]);
  }

  predicate StartsWithCloser(body: string, i: nat, c: Closer)
    requires i < |body|
  {
    match c
    case Square => body[i] == ']'
    case Curly => body[i] == '}'
    case Angles => body[i] == '>' && i + 1 < |body| && body[i + 1] == '>'
  }

  predicate OpensAngles(body: string, i: nat)
    requires i < |body|
  {
    body[i] == '<' && i + 1 < |body| && body[i + 1] == '<'
  }

  lemma OneTracks(q: Nesting, body: string, i: nat, stack: seq<Closer>, quote: Quote)
    requires i < |body| && Tracks(q, body, i, stack, quote)
    requires quote.Unquoted? ==> !OpensAngles(body, i)
    requires quote.Unquoted? && stack != [] && stack[|stack| - 1] == Angles ==>
               !StartsWithCloser(body, i, Angles)
    ensures var q' := Step(Nesting(stack, quote, NoHalf), body[i]);
            Tracks(Step(q, body[i]), body, i + 1, q'.stack, q'.quote)
    ensures Cut(q, body[i]) <==> body[i] == ' ' && quote.Unquoted? && stack == []
  {
  }

  lemma PairTracks(q: Nesting, body: string, i: nat, stack: seq<Closer>, quote: Quote)
    requires i < |body| && Tracks(q, body, i, stack, quote) && quote.Unquoted?
    requires if stack != [] && stack[|stack| - 1] == Angles && StartsWithCloser(body, i, Angles) then true
             else OpensAngles(body, i)
    ensures var q' := Step(q, body[i]);
            && !Cut(q, body[i]) && !Cut(q', body[i + 1])
            && Tracks(Step(q', body[i + 1]), body, i + 2,
                      if body[i] == '<' then stack + [Angles] else stack[..|stack| - 1], quote)
  {
  }

  /** One turn of the loop over a single character that stays in the token. */
  lemma ScanOne(body: string, i: nat, stack: seq<Closer>, quote: Quote, done: seq<string>, current: string)
    requires i < |body| && Scanned(body, i, stack, quote, done, current)
    requires quote.Unquoted? ==> !OpensAngles(body, i)
    requires quote.Unquoted? && stack != [] && stack[|stack| - 1] == Angles ==>
               !StartsWithCloser(body, i, Angles)
    requires !(body[i] == ' ' && quote.Unquoted? && stack == [])
    ensures var q' := Step(Nesting(stack, quote, NoHalf), body[i]);
            Scanned(body, i + 1, q'.stack, q'.quote, done, current + [body[i]])
  {
    OneTracks(Run(BODY, TOP, body[..i]), body, i, stack, quote);
    Advance(body, i, done, current);
  }

  /** One turn of the loop over a space between tokens. */
  lemma ScanSpace(body: string, i: nat, done: seq<string>, current: string)
    requires i < |body| && body[i] == ' ' && Scanned(body, i, [], Unquoted, done, current)
    ensures Scanned(body, i + 1, [], Unquoted, done + [current], "")
  {
    OneTracks(Run(BODY, TOP, body[..i]), body, i, [], Unquoted);
    Advance(body, i, done, current);
    LocatedSnoc(done, current, 0);
  }

  /** One turn of the loop over a "<<" or ">>". */
  lemma ScanPair(body: string, i: nat, stack: seq<Closer>, quote: Quote, done: seq<string>, current: string)
    requires i < |body| && Scanned(body, i, stack, quote, done, current) && quote.Unquoted?
    requires if stack != [] && stack[|stack| - 1] == Angles && StartsWithCloser(body, i, Angles) then true
             else OpensAngles(body, i)
    ensures Scanned(body, i + 2, if body[i] == '<' then stack + [Angles] else stack[..|stack| - 1],
                    quote, done, current + [body[i]] + [body[i + 1]])
  {
    var q := Run(BODY, TOP, body[..i]);
    PairTracks(q, body, i, stack, quote);
    AdvanceTwo(body, i, done, current);
  }

  lemma Finished(body: string, i: nat, stack: seq<Closer>, quote: Quote, done: seq<string>, current: string)
    requires i == |body| && Scanned(body, i, stack, quote, done, current)
    ensures Tokens(body) ==
            Located(done, 0) + if current == "" then [] else [Token(Width(done), current)]
  {
    assert body[..|body|] == body;
    LocatedSnoc(done, current, 0);
  }

  /** One turn of the loop over a one-character closer. */
  lemma ScanCloser(body: string, i: nat, stack: seq<Closer>, done: seq<string>, current: string)
    requires i < |body| && stack != [] && stack[|stack| - 1] != Angles && StartsWithCloser(body, i, stack[|stack| - 1])
    requires Scanned(body, i, stack, Unquoted, done, current)
    ensures Scanned(body, i + 1, stack[..|stack| - 1], Unquoted, done, current + [body[i]])
  {
    ScanOne(body, i, stack, Unquoted, done, current);
    assert Step(Nesting(stack, Unquoted, NoHalf), body[i]) == Pop(Nesting(stack, Unquoted, NoHalf));
  }

  /** One turn of the loop over a character that closes nothing, and opens no "<<". */
  lemma ScanOrdinary(body: string, i: nat, stack: seq<Closer>, done: seq<string>, current: string)
    requires i < |body| && Scanned(body, i, stack, Unquoted, done, current)
    requires !OpensAngles(body, i) && !(body[i] == ' ' && stack == [])
    requires stack != [] ==> !StartsWithCloser(body, i, stack[|stack| - 1])
    ensures var c := body[i];
            Scanned(body, i + 1,
                    if c == '[' then stack + [Square] else if c == '{' then stack + [Curly] else stack,
                    if c == '\'' || c == '"' then In(c) else Unquoted,
                    done, current + [c])
  {
    ScanOne(body, i, stack, Unquoted, done, current);
  }

  /** Takes the next character, or pair of characters, into the current token. */
  method Consume(body: string, i: nat, stack: seq<Closer>, quote: Quote, current: string, ghost done: seq<string>)
    returns (i': nat, stack': seq<Closer>, quote': Quote, current': string)
    requires i < |body| && Scanned(body, i, stack, quote, done, current)
    requires !(body[i] == ' ' && quote == Unquoted && stack == [])
    ensures i < i' <= |body| && current' != ""
    ensures Scanned(body, i', stack', quote', done, current')
  {
    var c := body[i];
    i', stack', quote', current' := i + 1, stack, quote, current + [c];
    // Quotes are not nested.
    if quote != Unquoted {
      ScanOne(body, i, stack, quote, done, current);
      if c == quote.mark { quote' := Unquoted; }
      return;
    }
    // The closer of the innermost bracket is looked for before any opener.
    if |stack| > 0 && StartsWithCloser(body, i, stack[|stack| - 1]) {
      stack' := stack[..|stack| - 1];
      if stack[|stack| - 1] == Angles {
        ScanPair(body, i, stack, quote, done, current);
        i', current' := i + 2, current + [c] + [body[i + 1]];
      } else {
        ScanCloser(body, i, stack, done, current);
      }
      return;
    }
    if OpensAngles(body, i) {
      ScanPair(body, i, stack, quote, done, current);
      i', stack', current' := i + 2, stack + [Angles], current + [c] + [body[i + 1]];
      return;
    }
    ScanOrdinary(body, i, stack, done, current);
    match c {
      case '\'' => quote' := In(c);
      case '"' => quote' := In(c);
      case '[' => stack' := stack + [Square];
      case '{' => stack' := stack + [Curly];
      case _ =>
    }
  }

  /** The whole of the loop's state: what was scanned, the tokens so far, and the one for the cursor. */
  ghost predicate Looping(body: string, cursor: int, i: nat, stack: seq<Closer>, quote: Quote, current: string,
                          tokStart: nat, done: seq<string>, parts: seq<string>, found: bool, part: string) {
    && Scanned(body, i, stack, quote, done, current)
    && (current != "" ==> tokStart == Width(done))
    && parts == Texts(Located(done, 0))
    && Picked(Located(done, 0), cursor, found, part)
  }

  lemma LoopStarts(body: string, cursor: int)
    ensures Looping(body, cursor, 0, [], Unquoted, "", 0, [], [], false, "")
  {
    assert body[..0] == "";
    assert [] + [""] == [""];
  }

  /** The current token starts where the finished ones end, or at `i` if it is still to come. */
  lemma TokenStarts(body: string, cursor: int, i: nat, stack: seq<Closer>, quote: Quote, current: string,
                    tokStart: nat, done: seq<string>, parts: seq<string>, found: bool, part: string)
    requires Looping(body, cursor, i, stack, quote, current, tokStart, done, parts, found, part)
    ensures Width(done) == if current == "" then i else tokStart
    ensures Scanned(body, i, stack, quote, done, current)
    ensures parts == Texts(Located(done, 0)) && Picked(Located(done, 0), cursor, found, part)
  {
  }

  method ParseBody(body: string, cursor: int) returns (parts: seq<string>, part: string)
    ensures parts == Texts(Tokens(body))
    ensures part == Reported(Tokens(body), cursor)
  {
    parts, part := [], "";
    var current, found, tokStart: nat := "", false, 0;
    var stack: seq<Closer>, quote := [], Unquoted;
    ghost var done: seq<string> := [];
    var i: nat, n := 0, |body|;
    LoopStarts(body, cursor);
    while i < n
      invariant i <= n
      invariant Looping(body, cursor, i, stack, quote, current, tokStart, done, parts, found, part)
    {
      if quote == Unquoted && |stack| == 0 && body[i] == ' ' {
        parts, part, found, done := EndToken(body, i, current, tokStart, cursor, parts, part, found, done);
        current := "";
        i := i + 1;
        tokStart := i;
      } else {
        TokenStarts(body, cursor, i, stack, quote, current, tokStart, done, parts, found, part);
        if |current| == 0 {
          tokStart := i;
        }
        i, stack, quote, current := Consume(body, i, stack, quote, current, done);
      }
    }
    parts, part := Conclude(body, i, stack, quote, current, tokStart, cursor, parts, part, found, done);
  }

  /** A space outside quotes and brackets ends the current token. */
  method EndToken(body: string, i: nat, current: string, tokStart: nat, cursor: int,
                  parts: seq<string>, part: string, found: bool, ghost done: seq<string>)
    returns (parts': seq<string>, part': string, found': bool, ghost done': seq<string>)
    requires i < |body| && body[i] == ' '
    requires Looping(body, cursor, i, [], Unquoted, current, tokStart, done, parts, found, part)
    ensures Looping(body, cursor, i + 1, [], Unquoted, "", i + 1, done', parts', found', part')
  {
    ScanSpace(body, i, done, current);
    LocatedNext(done, current, tokStart);
    parts', part', found' := Flush(parts, part, found, current, tokStart, i - 1, cursor, Located(done, 0));
    done' := done + [current];
  }

  lemma LocatedNext(done: seq<string>, current: string, tokStart: nat)
    requires current != "" ==> tokStart == Width(done)
    ensures Located(done + [current], 0) == After(Located(done, 0), tokStart, current)
  {
    LocatedSnoc(done, current, 0);
  }

  /** The tokens with the one in hand, if there is one. */
  function After(ts: seq<Token>, tokStart: nat, current: string): seq<Token> {
    ts + if current == "" then [] else [Token(tokStart, current)]
  }

  /** Ends the last token and falls back on it when no token holds the cursor. */
  method Conclude(body: string, i: nat, stack: seq<Closer>, quote: Quote, current: string, tokStart: nat, cursor: int,
                  parts: seq<string>, part: string, found: bool, ghost done: seq<string>)
    returns (parts': seq<string>, part': string)
    requires i == |body|
    requires Looping(body, cursor, i, stack, quote, current, tokStart, done, parts, found, part)
    ensures parts' == Texts(Tokens(body)) && part' == Reported(Tokens(body), cursor)
  {
    Finished(body, i, stack, quote, done, current);
    var found';
    parts', part', found' := Flush(parts, part, found, current, tokStart, |body| - 1, cursor, Located(done, 0));
    if !found' && |parts'| > 0 {
      part' := parts'[|parts'| - 1];
    }
  }

  /** Ends the current token, if there is one, at index `end` of the body. */
  method Flush(parts: seq<string>, part: string, found: bool, current: string, tokStart: nat, end: int,
               cursor: int, ghost ts: seq<Token>)
    returns (parts': seq<string>, part': string, found': bool)
    requires parts == Texts(ts)
    requires current != "" ==> end + 1 == tokStart + |current|
    requires Picked(ts, cursor, found, part)
    ensures parts' == Texts(After(ts, tokStart, current))
    ensures Picked(After(ts, tokStart, current), cursor, found', part')
  {
    parts', part', found' := parts, part, found;
    if |current| == 0 {
      assert ts + [] == ts;
      return;
    }
    parts' := parts + [current];
    HolderSnoc(ts, Token(tokStart, current), cursor);
    if !found && cursor >= tokStart && cursor <= end + 1 {
      part' := current;
      found' := true;
    }
  }
}
