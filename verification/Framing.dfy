/** Rebuilding messages from the lines of a connection (readMessage in spored/internal/nodes/node.go). */
module Framing {
  import opened Text
  import opened Splitting

  /** The lines of `s`; the last one has no newline after it. */
  function Lines(s: string): (ls: seq<string>)
    ensures |ls| > 0
  {
    SplitOn(s, '\n')
  }

  /** The lines that are complete, with their newline still to come off the connection. */
  function Complete(s: string): seq<string> {
    Lines(s)[..|Lines(s)| - 1]
  }

  function Partial(s: string): string {
    Lines(s)[|Lines(s)| - 1]
  }

  function ChopCR(l: string): string {
    if HasSuffix(l, "\r") then l[..|l| - 1] else l
  }

  /** The line ends a block value. */
  predicate Closes(l: string) {
    l == ">>" || HasPrefix(l, ">> ")
  }

  datatype Read = Message(text: string, rest: seq<string>) | Closed

  /** The next message in complete lines, with `line` read so far when `multiline`. */
  function ReadLines(ls: seq<string>, line: string, multiline: bool): Read
    decreases |ls|, 0
  {
    if ls == [] then Closed
    else
      var cur := ChopCR(ls[0]);
      if !multiline then
        if Contains(cur, "<<") then ReadLines(ls[1..], cur + "\n", true)
        else Deliver(cur, ls[1..])
      else if !Closes(cur) then ReadLines(ls[1..], line + cur + "\n", true)
      else if Contains(cur, "<<") then ReadLines(ls[1..], line + cur, true)
      else Deliver(line + cur, ls[1..])
  }

  /** A finished line is a message unless it is blank. */
  function Deliver(line: string, rest: seq<string>): Read
    decreases |rest|, 1
  {
    if Trim(line) == "" then ReadLines(rest, "", false) else Message(Trim(line), rest)
  }

  lemma LinesFirst(l: string, rest: string)
    requires '\n' !in l
    ensures Lines(l + "\n" + rest) == [l] + Lines(rest)
    ensures Complete(l + "\n" + rest) == [l] + Complete(rest)
    ensures Partial(l + "\n" + rest) == Partial(rest)
  {
    SplitFirst(l, rest, '\n');
  }

  lemma OneLine(l: string)
    requires '\n' !in l
    ensures Lines(l) == [l]
  {
    SplitNone(l, '\n');
  }

  /** A connection: the characters not read yet. */
  class Connection {
    var input: string

    constructor (input: string)
      ensures this.input == input
    {
      this.input := input;
    }

    /** Up to and including the next newline; without one, what is left is lost with the connection. */
    method ReadString() returns (raw: string, closed: bool)
      modifies this
      ensures closed <==> '\n' !in old(input)
      ensures closed ==> input == ""
      ensures !closed ==> |raw| > 0 && raw[|raw| - 1] == '\n' && '\n' !in raw[..|raw| - 1]
      ensures !closed ==> old(input) == raw + input
    {
      var i := 0;
      while i < |input| && input[i] != '\n'
        invariant 0 <= i <= |input| && '\n' !in input[..i]
      {
        i := i + 1;
      }
      closed := i == |input|;
      if closed {
        assert input[..i] == input;
        raw, input := "", "";
      } else {
        raw := input[..i + 1];
        assert raw[..i] == input[..i];
        input := input[i + 1..];
      }
    }

    method ReadMessage() returns (text: string, closed: bool)
      modifies this
      ensures match ReadLines(Complete(old(input)), "", false)
              case Message(t, rest) =>
                !closed && text == t && Complete(input) == rest && Partial(input) == Partial(old(input))
              case Closed => closed && input == ""
    {
      var line, multiline := "", false;
      ghost var start := input;
      while true
        invariant Pending(start, input, line, multiline)
        decreases |input|
      {
        ghost var before := input;
        var raw;
        raw, closed := ReadString();
        if closed {
          NoMoreLines(start, before, line, multiline);
          return "", true;
        }
        var currentLine := raw[..|raw| - 1];
        assert before == currentLine + "\n" + input;
        PendingTurn(start, currentLine, input, line, multiline);
        currentLine := ChopCR(currentLine);
        if !multiline {
          if Contains(currentLine, "<<") {
            multiline := true;
            line := currentLine + "\n";
            continue;
          }
          line := currentLine;
        } else {
          var isClose := currentLine == ">>" || HasPrefix(currentLine, ">> ");
          if !isClose {
            line := line + currentLine + "\n";
            continue;
          }
          line := line + currentLine;
          if Contains(currentLine, "<<") {
            continue;
          }
        }
        multiline := false;
        line := Trim(line);
        if line == "" {
          continue;
        }
        return line, false;
      }
    }
  }

  /** Reading on from `input` gives what reading from `start` was to give. */
  ghost predicate Pending(start: string, input: string, line: string, multiline: bool) {
    && ReadLines(Complete(start), "", false) == ReadLines(Complete(input), line, multiline)
    && Partial(input) == Partial(start)
  }

  lemma NoMoreLines(start: string, input: string, line: string, multiline: bool)
    requires Pending(start, input, line, multiline) && '\n' !in input
    ensures ReadLines(Complete(start), "", false) == Closed
  {
    OneLine(input);
  }

  lemma PendingTurn(start: string, l: string, rest: string, line: string, multiline: bool)
    requires '\n' !in l && Pending(start, l + "\n" + rest, line, multiline)
    ensures var cur := ChopCR(l);
            if !multiline && Contains(cur, "<<") then Pending(start, rest, cur + "\n", true)
            else if multiline && !Closes(cur) then Pending(start, rest, line + cur + "\n", true)
            else if multiline && Contains(cur, "<<") then Pending(start, rest, line + cur, true)
            else
              var whole := if multiline then line + cur else cur;
              if Trim(whole) == "" then Pending(start, rest, "", false)
              else ReadLines(Complete(start), "", false) == Message(Trim(whole), Complete(rest))
                   && Partial(rest) == Partial(start)
  {
    LinesFirst(l, rest);
    ReadTurn(l, Complete(rest), line, multiline);
  }

  lemma ReadTurn(l: string, rest: seq<string>, line: string, multiline: bool)
    ensures var cur := ChopCR(l);
            ReadLines([l] + rest, line, multiline) ==
            if !multiline then
              if Contains(cur, "<<") then ReadLines(rest, cur + "\n", true) else Deliver(cur, rest)
            else if !Closes(cur) then ReadLines(rest, line + cur + "\n", true)
            else if Contains(cur, "<<") then ReadLines(rest, line + cur, true)
            else Deliver(line + cur, rest)
  {
  }
}
