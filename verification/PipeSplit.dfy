/** Splitting a message into pipe stages (spored/internal/message/pipe.go). */
module PipeSplit {
  import opened Text
  import opened Scanner
  import opened Numbers
  import opened Wrappers

  /** What the last characters read mean for the next one. */
  datatype Tail =
    | Other
    | Eq                                // an '='
    | EqLt                              // "=<" outside quotes and brackets
    | Esc                               // a backslash inside double quotes
    | Block(lineStart: bool, gt: bool)  // inside =<< ... >>; gt: a '>' opened this line

  datatype Scan = Scan(single: bool, double: bool, brackets: nat, braces: nat, tail: Tail)

  const START := Scan(false, false, 0, 0, Other)

  /** Outside quotes and brackets. */
  predicate Bare(q: Scan) {
    !q.single && !q.double && q.brackets == 0 && q.braces == 0
  }

  /** A '|' read now separates two stages. */
  predicate Open(q: Scan) {
    Bare(q) && !q.tail.Esc? && !q.tail.Block?
  }

  function Step(q: Scan, ch: char): Scan {
    if q.tail.Block? then
      q.(tail := if q.tail.gt && ch == '>' then Other else Block(ch == '\n', q.tail.lineStart && ch == '>'))
    else if q.tail.Esc? then
      q.(tail := if ch == '=' then Eq else Other)
    else if ch == '\\' && q.double then
      q.(tail := Esc)
    else if q.tail.EqLt? && ch == '<' then
      q.(tail := Block(false, false))
    else
      Scan(if ch == '\'' && !q.double then !q.single else q.single,
           if ch == '"' && !q.single then !q.double else q.double,
           if q.single || q.double then q.brackets
           else if ch == '[' then q.brackets + 1
           else if ch == ']' && q.brackets > 0 then q.brackets - 1
           else q.brackets,
           if q.single || q.double then q.braces
           else if ch == '{' then q.braces + 1
           else if ch == '}' && q.braces > 0 then q.braces - 1
           else q.braces,
           if ch == '=' then Eq else if ch == '<' && q.tail.Eq? && Bare(q) then EqLt else Other)
  }

  predicate Cut(q: Scan, ch: char) {
    ch == '|' && Open(q)
  }

  const STAGES: Machine<Scan> := Machine(Step, Cut)

  lemma StagesReset()
    ensures Resets(STAGES, START)
  {
  }

  function DropEmptyLast(ps: seq<string>): seq<string>
    requires |ps| > 0
  {
    if ps[|ps| - 1] == "" then ps[..|ps| - 1] else ps
  }

  /** The trimmed pieces between top-level bars, without an empty last piece. */
  function Split(raw: string): seq<string> {
    TrimAll(DropEmptyLast(Pieces(STAGES, START, raw)))
  }

  predicate IsPipe(raw: string) {
    '|' in raw && |Split(raw)| > 1
  }

  /** The scanning loop's variables stand for machine state `q` after `raw[..i]`. */
  ghost predicate Tracks(q: Scan, raw: string, i: nat, inSingle: bool, inDouble: bool,
                         bracketDepth: nat, braceDepth: nat, escaped: bool, inBlock: bool, atLineStart: bool)
    requires i <= |raw|
  {
    && q.single == inSingle && q.double == inDouble
    && q.brackets == bracketDepth && q.braces == braceDepth
    && (if inBlock then
          !escaped &&
          if q.tail.EqLt? then !atLineStart && i < |raw| && raw[i] == '<'
          else q.tail.Block? && q.tail.lineStart == atLineStart && (q.tail.gt && i < |raw| ==> raw[i] != '>')
        else
          && !q.tail.Block?
          && q.tail.Esc? == escaped
          && (q.tail.Eq? <==> i > 0 && raw[i - 1] == '=')
          && (q.tail.EqLt? && i < |raw| ==> raw[i] != '<'))
  }

  lemma Advance(raw: string, i: nat, done: seq<string>, buf: string)
    requires i < |raw| && Pieces(STAGES, START, raw[..i]) == done + [buf]
    ensures Run(STAGES, START, raw[..i + 1]) == Step(Run(STAGES, START, raw[..i]), raw[i])
    ensures Pieces(STAGES, START, raw[..i + 1]) ==
            if Cut(Run(STAGES, START, raw[..i]), raw[i]) then done + [buf] + [""]
            else done + [buf + [raw[i]]]
  {
    assert raw[..i + 1] == raw[..i] + [raw[i]];
    PiecesSnoc(STAGES, START, raw[..i], raw[i]);
    assert (done + [buf])[..|done|] == done;
  }

  /** The lookahead for "<<" after an ordinary character. */
  predicate OpensBlock(q: Scan, raw: string, i: nat)
    requires i < |raw|
  {
    Bare(q) && raw[i] == '<' && i > 0 && raw[i - 1] == '=' && i + 1 < |raw| && raw[i + 1] == '<'
  }

  lemma OrdinaryTracks(q: Scan, raw: string, i: nat, atLineStart: bool)
    requires i < |raw|
    requires Tracks(q, raw, i, q.single, q.double, q.brackets, q.braces, false, false, atLineStart)
    requires !(raw[i] == '\\' && q.double)
    ensures var q' := Step(q, raw[i]);
            Tracks(q', raw, i + 1, q'.single, q'.double, q'.brackets, q'.braces,
                   false, OpensBlock(q', raw, i), raw[i] == '\n')
  {
  }

  /** The scanning loop has read `raw[..i]` into finished pieces, kept trimmed, and the text of the current one. */
  ghost predicate Looping(raw: string, i: nat, inSingle: bool, inDouble: bool, bracketDepth: nat, braceDepth: nat,
                          escaped: bool, inBlock: bool, atLineStart: bool,
                          done: seq<string>, parts: seq<string>, buf: string) {
    && i <= |raw|
    && Tracks(Run(STAGES, START, raw[..i]), raw, i, inSingle, inDouble,
              bracketDepth, braceDepth, escaped, inBlock, atLineStart)
    && Pieces(STAGES, START, raw[..i]) == done + [buf]
    && parts == TrimAll(done)
  }

  /** A turn that copies one character without looking at it as a delimiter. */
  lemma CopyTurn(raw: string, i: nat, q: Scan, escaped: bool, inBlock: bool, atLineStart: bool,
                 done: seq<string>, parts: seq<string>, buf: string)
    requires i < |raw| && (inBlock || escaped || (raw[i] == '\\' && q.double))
    requires !(inBlock && atLineStart && raw[i] == '>' && i + 1 < |raw| && raw[i + 1] == '>')
    requires Looping(raw, i, q.single, q.double, q.brackets, q.braces, escaped, inBlock, atLineStart, done, parts, buf)
    ensures Looping(raw, i + 1, q.single, q.double, q.brackets, q.braces, !inBlock && !escaped, inBlock,
                    raw[i] == '\n', done, parts, buf + [raw[i]])
  {
    Advance(raw, i, done, buf);
  }

  /** The turn that reads the ">>" closing a block. */
  lemma CloseTurn(raw: string, i: nat, q: Scan, done: seq<string>, parts: seq<string>, buf: string)
    requires i + 1 < |raw| && raw[i] == '>' && raw[i + 1] == '>'
    requires Looping(raw, i, q.single, q.double, q.brackets, q.braces, false, true, true, done, parts, buf)
    ensures Looping(raw, i + 2, q.single, q.double, q.brackets, q.braces, false, false, false,
                    done, parts, buf + ">>")
  {
    Advance(raw, i, done, buf);
    Advance(raw, i + 1, done, buf + [raw[i]]);
    assert buf + [raw[i]] + [raw[i + 1]] == buf + ">>";
  }

  /** A turn over a character that may be a delimiter. */
  lemma OrdinaryTurn(raw: string, i: nat, q: Scan, atLineStart: bool, done: seq<string>, parts: seq<string>, buf: string)
    requires i < |raw| && q.tail.Other? && !(raw[i] == '\\' && q.double)
    requires Looping(raw, i, q.single, q.double, q.brackets, q.braces, false, false, atLineStart, done, parts, buf)
    ensures var q' := Step(q, raw[i]);
            if raw[i] == '|' && Bare(q) then
              Looping(raw, i + 1, false, false, 0, 0, false, false, false, done + [buf], parts + [Trim(buf)], "")
            else
              Looping(raw, i + 1, q'.single, q'.double, q'.brackets, q'.braces, false, OpensBlock(q', raw, i),
                      raw[i] == '\n', done, parts, buf + [raw[i]])
  {
    Advance(raw, i, done, buf);
    OrdinaryTracks(Run(STAGES, START, raw[..i]), raw, i, atLineStart);
  }

  method SplitPipe(raw: string) returns (parts: seq<string>)
    ensures parts == Split(raw)
  {
    parts := [];
    var buf := "";
    var inSingle, inDouble := false, false;
    var bracketDepth: nat, braceDepth: nat := 0, 0;
    var escaped, inBlock, atLineStart := false, false, true;
    ghost var done: seq<string> := [];
    var i := 0;
    while i < |raw|
      invariant 0 <= i <= |raw|
      invariant Looping(raw, i, inSingle, inDouble, bracketDepth, braceDepth, escaped, inBlock, atLineStart,
                        done, parts, buf)
    {
      var ch := raw[i];
      ghost var q := Scan(inSingle, inDouble, bracketDepth, braceDepth, Other);
      if inBlock {
        if atLineStart && ch == '>' && i + 1 < |raw| && raw[i + 1] == '>' {
          CloseTurn(raw, i, q, done, parts, buf);
          buf := buf + ">>";
          inBlock := false;
          atLineStart := false;
          i := i + 2;
          continue;
        }
        CopyTurn(raw, i, q, escaped, inBlock, atLineStart, done, parts, buf);
        buf := buf + [ch];
        atLineStart := ch == '\n';
        i := i + 1;
        continue;
      }
      if escaped {
        CopyTurn(raw, i, q, escaped, inBlock, atLineStart, done, parts, buf);
        buf := buf + [ch];
        escaped := false;
        atLineStart := ch == '\n';
        i := i + 1;
        continue;
      }
      if ch == '\\' && inDouble {
        CopyTurn(raw, i, q, escaped, inBlock, atLineStart, done, parts, buf);
        buf := buf + [ch];
        escaped := true;
        atLineStart := false;
        i := i + 1;
        continue;
      }
      OrdinaryTurn(raw, i, q, atLineStart, done, parts, buf);
      match ch {
        case '\'' =>
          if !inDouble { inSingle := !inSingle; }
          buf := buf + [ch];
        case '"' =>
          if !inSingle { inDouble := !inDouble; }
          buf := buf + [ch];
        case '[' =>
          if !inSingle && !inDouble { bracketDepth := bracketDepth + 1; }
          buf := buf + [ch];
        case ']' =>
          if !inSingle && !inDouble && bracketDepth > 0 { bracketDepth := bracketDepth - 1; }
          buf := buf + [ch];
        case '{' =>
          if !inSingle && !inDouble { braceDepth := braceDepth + 1; }
          buf := buf + [ch];
        case '}' =>
          if !inSingle && !inDouble && braceDepth > 0 { braceDepth := braceDepth - 1; }
          buf := buf + [ch];
        case '|' =>
          if !inSingle && !inDouble && bracketDepth == 0 && braceDepth == 0 {
            parts := parts + [Trim(buf)];
            done := done + [buf];
            buf := "";
          } else {
            buf := buf + [ch];
          }
        case _ =>
          buf := buf + [ch];
      }
      if !inSingle && !inDouble && bracketDepth == 0 && braceDepth == 0 &&
         ch == '<' && i > 0 && raw[i - 1] == '=' && i + 1 < |raw| && raw[i + 1] == '<' {
        inBlock := true;
      }
      atLineStart := ch == '\n';
      i := i + 1;
    }
    assert raw[..i] == raw;
    if |buf| > 0 {
      parts := parts + [Trim(buf)];
    }
  }

  // The message made of the stages.

  datatype Arg = Value(text: string) | BadKey | LowIndex | HighIndex

  /** A pipe message: its text, the node it came from, and its stages. */
  datatype PipeMessage = PipeMessage(raw: string, id: string, parts: seq<string>) {

    /** Two keys of their own; any other key is the index of a stage. */
    function Arg(key: string): Arg {
      if key == "raw" then Value(raw)
      else if key == "cast" then Value(id)
      else
        match Atoi(key)
        case None => BadKey
        case Some(i) => if i < 0 then LowIndex else if i >= |parts| then HighIndex else Value(parts[i])
    }
  }

  method MakePipe(raw: string, id: string) returns (m: Option<PipeMessage>)
    ensures m == if IsPipe(raw) then Some(PipeMessage(raw, id, Split(raw))) else None
  {
    var parts := SplitPipe(raw);
    if |parts| < 2 {
      return None;
    }
    BarInPipe(raw);
    return Some(PipeMessage(raw, id, parts));
  }

  lemma {:induction false} BarInPipe(raw: string)
    ensures |Split(raw)| > 1 ==> '|' in raw
  {
    if '|' !in raw {
      UncutWithoutBar(START, raw);
      UncutIsOnePiece(STAGES, START, raw);
    }
  }

  lemma {:induction false} UncutWithoutBar(q: Scan, s: string)
    requires '|' !in s
    ensures Uncut(STAGES, q, s)
    decreases s
  {
    if s != "" {
      UncutWithoutBar(Step(q, s[0]), s[1..]);
    }
  }

  /** Asked for a printed index, the message gives that stage, or says the index is too high; the other errors cannot come up. */
  lemma ArgOfIndex(m: PipeMessage, index: nat)
    requires index <= MAX_INT
    ensures m.Arg(Sprint(index)) == if index < |m.parts| then Value(m.parts[index]) else HighIndex
  {
    SprintValue(index);
    AtoiSprint(index);
    assert '0' <= Sprint(index)[0] <= '9';
  }
}
