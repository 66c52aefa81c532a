/** Exactly which messages survive framing, and that streams of them are read back in order. */
module FramingLaws {
  import opened Text
  import opened Splitting
  import opened Framing

  predicate NoCR(l: string) {
    l == "" || l[|l| - 1] != '\r'
  }

  /** The line is ">>" alone, or goes on with a space behind it. */
  predicate EndsBlock(l: string) {
    l == ">>" || (|l| >= 3 && l[0] == '>' && l[1] == '>' && l[2] == ' ')
  }

  /** What the reader does with such lines. */
  lemma LineChecks(l: string)
    ensures ChopCR(l) == l <==> NoCR(l)
    ensures Closes(l) <==> EndsBlock(l)
  {
    CRCheck(l);
    ThreeFirst(l);
  }

  lemma CRCheck(l: string)
    ensures ChopCR(l) == l <==> NoCR(l)
  {
    if l != "" {
      assert l[|l| - 1..] == [l[|l| - 1]];
    }
  }

  lemma ThreeFirst(l: string)
    ensures ">> " <= l <==> |l| >= 3 && l[0] == '>' && l[1] == '>' && l[2] == ' '
  {
    if |l| >= 3 {
      assert l[..3] == [l[0], l[1], l[2]];
    }
  }

  /** The lines after the first one of a block message: text lines, then one closing line. */
  ghost predicate BlockTail(ls: seq<string>) {
    && |ls| > 0
    && (forall i :: 0 <= i < |ls| - 1 ==> NoCR(ls[i]) && !EndsBlock(ls[i]))
    && var last := ls[|ls| - 1];
       NoCR(last) && EndsBlock(last) && !Contains(last, "<<")
  }

  ghost predicate FramedLines(ls: seq<string>) {
    && |ls| > 0
    && NoCR(ls[0])
    && if |ls| == 1 then !Contains(ls[0], "<<") else Contains(ls[0], "<<") && BlockTail(ls[1..])
  }

  /**
   A message that fits the framing: trimmed, and either one line without "<<" or one
   block, whose closing line is its last and opens no other block. No line ends in CR.
   */
  ghost predicate Framed(m: string) {
    m != "" && Trimmed(m) && FramedLines(Lines(m))
  }

  function Size(ls: seq<string>): nat {
    if ls == [] then 0 else |ls[0]| + 1 + Size(ls[1..])
  }

  lemma {:induction false} JoinSize(ls: seq<string>)
    requires |ls| > 0
    ensures |Join(ls, "\n")| == Size(ls) - 1
    decreases |ls|
  {
    if |ls| > 1 {
      JoinSize(ls[1..]);
    }
  }

  lemma JoinLines(s: string)
    ensures Join(Lines(s), "\n") == s
  {
    JoinSplit(s, '\n');
  }

  // What is read is trimmed and never longer than the lines it came from.

  lemma TrimSize(s: string)
    ensures |Trim(s)| <= |s| && Trimmed(Trim(s))
    ensures |Trim(s)| == |s| ==> Trim(s) == s
  {
    var lead, trail := TrimSplits(s);
    if |Trim(s)| == |s| {
      assert lead == "" && trail == "";
    }
  }

  lemma {:induction false} ReadShortens(ls: seq<string>, line: string, multiline: bool)
    ensures match ReadLines(ls, line, multiline)
            case Message(t, rest) => |rest| < |ls| && t != "" && Trimmed(t)
            case Closed => true
    decreases |ls|, 0
  {
    if ls != [] {
      var cur := ChopCR(ls[0]);
      if !multiline {
        if Contains(cur, "<<") {
          ReadShortens(ls[1..], cur + "\n", true);
        } else {
          DeliverShortens(cur, ls[1..]);
        }
      } else if !Closes(cur) {
        ReadShortens(ls[1..], line + cur + "\n", true);
      } else if Contains(cur, "<<") {
        ReadShortens(ls[1..], line + cur, true);
      } else {
        DeliverShortens(line + cur, ls[1..]);
      }
    }
  }

  lemma {:induction false} DeliverShortens(line: string, rest: seq<string>)
    ensures match Deliver(line, rest)
            case Message(t, r) => |r| <= |rest| && t != "" && Trimmed(t)
            case Closed => true
    decreases |rest|, 1
  {
    TrimSize(line);
    if Trim(line) == "" {
      ReadShortens(rest, "", false);
    }
  }

  /** The most that reading lines `ls` into a message can give. */
  function Bound(ls: seq<string>, line: string, multiline: bool): int {
    (if multiline then |line| else 0) + Size(ls) - 1
  }

  /** What it takes to read all of `ls` without losing a character. */
  ghost predicate Lossless(ls: seq<string>, line: string, multiline: bool, t: string) {
    |ls| > 0 && if multiline then BlockTail(ls) && t == line + Join(ls, "\n") else FramedLines(ls) && t == Join(ls, "\n")
  }

  /** What is to be shown of lines `ls` that were read into `t`. */
  ghost predicate Bounded(ls: seq<string>, line: string, multiline: bool, t: string) {
    && |t| <= Bound(ls, line, multiline)
    && (|t| == Bound(ls, line, multiline) ==> Lossless(ls, line, multiline, t))
  }

  lemma HeadOff(ls: seq<string>, rest: seq<string>)
    requires ls != []
    ensures ls + rest == [ls[0]] + (ls[1..] + rest)
  {
  }

  lemma {:induction false} ReadBound(ls: seq<string>, rest: seq<string>, line: string, multiline: bool, t: string)
    requires ReadLines(ls + rest, line, multiline) == Message(t, rest)
    ensures Bounded(ls, line, multiline, t)
    decreases |ls|, 0
  {
    ReadShortens(ls + rest, line, multiline);
    var cur, tail := ChopCR(ls[0]), ls[1..];
    HeadOff(ls, rest);
    ReadTurn(ls[0], tail + rest, line, multiline);
    if !multiline && Contains(cur, "<<") {
      ReadBound(tail, rest, cur + "\n", true, t);
      BoundOpening(ls, line, t);
    } else if multiline && !Closes(cur) {
      ReadBound(tail, rest, line + cur + "\n", true, t);
      BoundText(ls, line, t);
    } else if multiline && Contains(cur, "<<") {
      ReadBound(tail, rest, line + cur, true, t);
    } else {
      var whole := if multiline then line + cur else cur;
      DeliverBound(tail, rest, whole, t);
      BoundLast(ls, line, multiline, t);
    }
  }

  lemma BoundOpening(ls: seq<string>, line: string, t: string)
    requires ls != [] && Contains(ChopCR(ls[0]), "<<")
    requires Bounded(ls[1..], ChopCR(ls[0]) + "\n", true, t)
    ensures Bounded(ls, line, false, t)
  {
    LineChecks(ls[0]);
  }

  lemma BoundText(ls: seq<string>, line: string, t: string)
    requires ls != [] && !Closes(ChopCR(ls[0]))
    requires Bounded(ls[1..], line + ChopCR(ls[0]) + "\n", true, t)
    ensures Bounded(ls, line, true, t)
  {
    LineChecks(ls[0]);
    var cur := ChopCR(ls[0]);
    if |t| == Bound(ls, line, true) {
      assert cur == ls[0] && |t| == Bound(ls[1..], line + cur + "\n", true);
      BlockTailLonger(ls);
      assert Join(ls, "\n") == cur + "\n" + Join(ls[1..], "\n");
      ThreeAfter(line, cur, "\n", Join(ls[1..], "\n"));
    }
  }

  lemma BlockTailLonger(ls: seq<string>)
    requires ls != [] && BlockTail(ls[1..]) && NoCR(ls[0]) && !EndsBlock(ls[0])
    ensures BlockTail(ls)
  {
    assert forall i :: 0 < i < |ls| ==> ls[i] == ls[1..][i - 1];
  }

  lemma ThreeAfter(line: string, a: string, b: string, c: string)
    ensures line + a + b + c == line + (a + b + c)
  {
    Reassociate(line, a, b);
    Reassociate(line, a + b, c);
  }

  lemma BoundLast(ls: seq<string>, line: string, multiline: bool, t: string)
    requires ls != [] && !Contains(ChopCR(ls[0]), "<<") && (multiline ==> Closes(ChopCR(ls[0])))
    requires DeliveredBounded(ls[1..], if multiline then line + ChopCR(ls[0]) else ChopCR(ls[0]), t)
    ensures Bounded(ls, line, multiline, t)
  {
    LineChecks(ls[0]);
  }

  /** The same once a whole line was put together with lines `tail` behind it. */
  ghost predicate DeliveredBounded(tail: seq<string>, line: string, t: string) {
    && |t| <= |line| + Size(tail)
    && (|t| == |line| + Size(tail) ==> tail == [] && t == line)
  }

  lemma {:induction false} DeliverBound(tail: seq<string>, rest: seq<string>, line: string, t: string)
    requires Deliver(line, tail + rest) == Message(t, rest)
    ensures DeliveredBounded(tail, line, t)
    decreases |tail|, 1
  {
    TrimSize(line);
    if Trim(line) == "" {
      ReadBound(tail, rest, "", false, t);
    } else {
      assert |tail + rest| == |rest|;
    }
  }

  lemma BlockTailRest(ls: seq<string>)
    requires BlockTail(ls) && |ls| > 1
    ensures NoCR(ls[0]) && !EndsBlock(ls[0]) && BlockTail(ls[1..])
  {
  }

  lemma {:induction false} TailReads(ls: seq<string>, rest: seq<string>, line: string)
    requires BlockTail(ls)
    ensures ReadLines(ls + rest, line, true) == Deliver(line + Join(ls, "\n"), rest)
    decreases |ls|
  {
    LineChecks(ls[0]);
    HeadOff(ls, rest);
    ReadTurn(ls[0], ls[1..] + rest, line, true);
    if |ls| == 1 {
      assert ls[1..] + rest == rest;
    } else {
      BlockTailRest(ls);
      TailReads(ls[1..], rest, line + ls[0] + "\n");
      ThreeAfter(line, ls[0], "\n", Join(ls[1..], "\n"));
    }
  }

  lemma BlockReads(first: string, tail: seq<string>, rest: seq<string>)
    requires NoCR(first) && Contains(first, "<<") && BlockTail(tail)
    ensures ReadLines([first] + (tail + rest), "", false) == Deliver(first + "\n" + Join(tail, "\n"), rest)
  {
    LineChecks(first);
    ReadTurn(first, tail + rest, "", false);
    TailReads(tail, rest, first + "\n");
  }

  lemma FramedReads(ls: seq<string>, rest: seq<string>)
    requires FramedLines(ls)
    ensures ReadLines(ls + rest, "", false) == Deliver(Join(ls, "\n"), rest)
  {
    LineChecks(ls[0]);
    if |ls| == 1 {
      ReadTurn(ls[0], rest, "", false);
      assert ls == [ls[0]];
    } else {
      BlockReads(ls[0], ls[1..], rest);
      HeadOff(ls, rest);
    }
  }

  /** The lines of a message are read back as that message exactly when it fits the framing. */
  lemma MessageReadBack(m: string, rest: seq<string>)
    ensures ReadLines(Lines(m) + rest, "", false) == Message(m, rest) <==> Framed(m)
  {
    JoinLines(m);
    JoinSize(Lines(m));
    if Framed(m) {
      FramedReads(Lines(m), rest);
      TrimFixed(m);
    }
    if ReadLines(Lines(m) + rest, "", false) == Message(m, rest) {
      ReadBound(Lines(m), rest, "", false, m);
      ReadShortens(Lines(m) + rest, "", false);
    }
  }

  // Streams of messages.

  lemma WrittenAllLines(m: string, rest: string)
    ensures Lines(m + "\n" + rest) == Lines(m) + Lines(rest)
  {
    SplitBetween(m, rest, '\n');
  }

  /** A message written with a newline comes off the connection as its lines. */
  lemma WrittenLines(m: string, rest: string)
    ensures Complete(m + "\n" + rest) == Lines(m) + Complete(rest)
    ensures Partial(m + "\n" + rest) == Partial(rest)
  {
    WrittenAllLines(m, rest);
    var a, b := Lines(m), Lines(rest);
    assert (a + b)[..|a + b| - 1] == a + b[..|b| - 1];
  }

  /**
   On the connection itself: a message written with a newline is the next one read,
   with nothing else taken off, exactly when it fits the framing.
   */
  lemma WrittenMessage(m: string, rest: string)
    ensures ReadLines(Complete(m + "\n" + rest), "", false) == Message(m, Complete(rest)) <==> Framed(m)
  {
    WrittenLines(m, rest);
    MessageReadBack(m, Complete(rest));
  }

  predicate BlankLine(l: string) {
    AllSpace(l) && '\n' !in l
  }

  /** Each text followed by a newline. */
  function Written(ls: seq<string>): string {
    if ls == [] then "" else ls[0] + "\n" + Written(ls[1..])
  }

  /** A message and the blank lines sent before it. */
  datatype Sent = Sent(blanks: seq<string>, text: string)

  function Stream(sent: seq<Sent>, end: string): string {
    if sent == [] then end
    else Written(sent[0].blanks) + (sent[0].text + "\n" + Stream(sent[1..], end))
  }

  function SentTexts(sent: seq<Sent>): seq<string> {
    if sent == [] then [] else [sent[0].text] + SentTexts(sent[1..])
  }

  function ReadAll(ls: seq<string>): seq<string>
    decreases |ls|
  {
    ReadShortens(ls, "", false);
    match ReadLines(ls, "", false)
    case Message(t, rest) => [t] + ReadAll(rest)
    case Closed => []
  }

  lemma SpaceTrimsAway(l: string)
    requires AllSpace(l)
    ensures Trim(ChopCR(l)) == "" && !Contains(ChopCR(l), "<<")
  {
    var c := ChopCR(l);
    TrimPadded(c, "", "");
    assert c + "" + "" == c;
    NoLtNoOpener(c);
  }

  lemma NoLtNoOpener(s: string)
    requires '<' !in s
    ensures !Contains(s, "<<")
  {
    forall i | 0 <= i <= |s|
      ensures !("<<" <= s[i..])
    {
      if i < |s| {
        assert s[i..][0] == s[i];
      }
    }
  }

  lemma {:induction false} BlanksSkipped(blanks: seq<string>, rest: string)
    requires forall i :: 0 <= i < |blanks| ==> BlankLine(blanks[i])
    ensures ReadLines(Complete(Written(blanks) + rest), "", false) == ReadLines(Complete(rest), "", false)
    decreases |blanks|
  {
    if blanks == [] {
      assert Written(blanks) + rest == rest;
    } else {
      var after := Written(blanks[1..]) + rest;
      assert Written(blanks) + rest == blanks[0] + "\n" + after;
      LinesFirst(blanks[0], after);
      ReadTurn(blanks[0], Complete(after), "", false);
      SpaceTrimsAway(blanks[0]);
      BlanksSkipped(blanks[1..], rest);
    }
  }

  /**
   A connection carrying framed messages, with blank lines anywhere between them and
   an unfinished line at the end, is read as those messages in order and then closed.
   */
  lemma {:induction false} FramingRoundTrip(sent: seq<Sent>, blanks: seq<string>, unfinished: string)
    requires forall i :: 0 <= i < |sent| ==>
               Framed(sent[i].text) && forall j :: 0 <= j < |sent[i].blanks| ==> BlankLine(sent[i].blanks[j])
    requires forall i :: 0 <= i < |blanks| ==> BlankLine(blanks[i])
    requires '\n' !in unfinished
    ensures ReadAll(Complete(Stream(sent, Written(blanks) + unfinished))) == SentTexts(sent)
    decreases |sent|
  {
    var end := Written(blanks) + unfinished;
    if sent == [] {
      BlanksSkipped(blanks, unfinished);
      OneLine(unfinished);
    } else {
      var after := Stream(sent[1..], end);
      NextSent(sent[0], after);
      FramingRoundTrip(sent[1..], blanks, unfinished);
    }
  }

  lemma NextSent(s: Sent, after: string)
    requires Framed(s.text) && forall j :: 0 <= j < |s.blanks| ==> BlankLine(s.blanks[j])
    ensures ReadAll(Complete(Written(s.blanks) + (s.text + "\n" + after))) == [s.text] + ReadAll(Complete(after))
  {
    BlanksSkipped(s.blanks, s.text + "\n" + after);
    WrittenMessage(s.text, after);
  }

  // Messages that end in a block, and line ends as other systems write them.

  lemma LastCharOf(a: string, b: string)
    requires b != ""
    ensures (a + b)[|a + b| - 1] == b[|b| - 1]
  {
  }

  lemma OpeningLine(pre: string)
    ensures var l := pre + "=<<"; NoCR(l) && Contains(l, "<<") && ('\n' !in pre ==> '\n' !in l)
  {
    var l := pre + "=<<";
    assert l[|pre| + 1..] == "<<";
  }

  lemma BlockMessageLines(pre: string, v: string)
    requires '\n' !in pre
    ensures Lines(pre + "=<<\n" + v + "\n>>") == [pre + "=<<"] + (Lines(v) + [">>"])
  {
    var first := pre + "=<<";
    OpeningLine(pre);
    LinesFirst(first, v + "\n" + ">>");
    WrittenAllLines(v, ">>");
    OneLine(">>");
    assert pre + "=<<\n" + v + "\n>>" == first + "\n" + (v + "\n" + ">>");
  }

  /** No line of the value ends the block or ends in CR: it is not ">>", does not begin with ">> ", and its last character is not CR. */
  ghost predicate LinesFit(v: string) {
    forall i :: 0 <= i < |Lines(v)| ==>
      var l := Lines(v)[i];
      l != ">>" && !(">> " <= l) && (l != "" ==> l[|l| - 1] != '\r')
  }

  lemma ClosingAlone(ls: seq<string>)
    ensures BlockTail(ls + [">>"]) <==> forall i :: 0 <= i < |ls| ==> NoCR(ls[i]) && !EndsBlock(ls[i])
  {
    var all := ls + [">>"];
    assert all[|ls|] == ">>";
    assert !Contains(">>", "<<") by {
      if i :| 0 <= i <= 2 && "<<" <= ">>"[i..] {
        assert ">>"[i..][0] == '<';
      }
    }
    if BlockTail(all) {
      assert forall i :: 0 <= i < |ls| ==> all[i] == ls[i];
    }
  }

  /**
   A message that ends in a block, as requests come: written with a newline it is the next
   message, the line ">>" ends it, and nothing more is taken off, exactly when no line of
   the value ends the block before or ends in CR, and the message does not begin with white
   space.
   */
  lemma BlockReadBack(pre: string, v: string, rest: string)
    requires '\n' !in pre
    ensures var m := pre + "=<<\n" + v + "\n>>";
            ReadLines(Complete(m + "\n" + rest), "", false) == Message(m, Complete(rest)) <==>
            LinesFit(v) && (pre != "" ==> !IsSpace(pre[0]))
  {
    var m := pre + "=<<\n" + v + "\n>>";
    WrittenMessage(m, rest);
    BlockMessageLines(pre, v);
    OpeningLine(pre);
    ClosingAlone(Lines(v));
    assert Lines(m)[1..] == Lines(v) + [">>"];
    assert m[0] == (pre + "=<<\n")[0];
    LastCharOf(pre + "=<<\n" + v, "\n>>");
    LinesFitChecks(v);
  }

  lemma LinesFitChecks(v: string)
    ensures LinesFit(v) <==> forall i :: 0 <= i < |Lines(v)| ==> NoCR(Lines(v)[i]) && !EndsBlock(Lines(v)[i])
  {
    forall i | 0 <= i < |Lines(v)|
      ensures var l := Lines(v)[i]; (l != ">>" && !(">> " <= l)) <==> !EndsBlock(l)
    {
      ThreeFirst(Lines(v)[i]);
    }
  }

  function WithCR(ls: seq<string>): seq<string> {
    if ls == [] then [] else [ls[0] + "\r"] + WithCR(ls[1..])
  }

  lemma CRChopped(l: string)
    ensures ChopCR(l + "\r") == l
  {
    assert (l + "\r")[|l|..] == "\r" && (l + "\r")[..|l|] == l;
  }

  /** Lines that end in CR and newline are read as if they ended in a newline alone. */
  lemma {:induction false} CRLinesRead(ls: seq<string>, line: string, multiline: bool)
    requires forall i :: 0 <= i < |ls| ==> NoCR(ls[i])
    ensures match ReadLines(ls, line, multiline)
            case Message(t, rest) => ReadLines(WithCR(ls), line, multiline) == Message(t, WithCR(rest))
            case Closed => ReadLines(WithCR(ls), line, multiline) == Closed
    decreases |ls|, 0
  {
    if ls != [] {
      var cur, rest := ls[0], ls[1..];
      LineChecks(cur);
      CRChopped(cur);
      assert WithCR(ls) == [cur + "\r"] + WithCR(rest);
      ReadTurn(cur + "\r", WithCR(rest), line, multiline);
      if !multiline {
        if Contains(cur, "<<") {
          CRLinesRead(rest, cur + "\n", true);
        } else {
          CRDelivered(cur, rest);
        }
      } else if !Closes(cur) {
        CRLinesRead(rest, line + cur + "\n", true);
      } else if Contains(cur, "<<") {
        CRLinesRead(rest, line + cur, true);
      } else {
        CRDelivered(line + cur, rest);
      }
    }
  }

  lemma {:induction false} CRDelivered(line: string, ls: seq<string>)
    requires forall i :: 0 <= i < |ls| ==> NoCR(ls[i])
    ensures match Deliver(line, ls)
            case Message(t, rest) => Deliver(line, WithCR(ls)) == Message(t, WithCR(rest))
            case Closed => Deliver(line, WithCR(ls)) == Closed
    decreases |ls|, 1
  {
    if Trim(line) == "" {
      CRLinesRead(ls, "", false);
    }
  }

  /**
   A closing line that opens another block loses its newline, so a message with two
   blocks is not read back as it was written.
   */
  lemma SecondBlockLosesNewline(first: string, middle: string, last: string)
    requires NoCR(first) && NoCR(middle) && NoCR(last)
    requires Contains(first, "<<") && EndsBlock(middle) && Contains(middle, "<<")
    requires EndsBlock(last) && !Contains(last, "<<")
    ensures ReadLines([first, middle, last], "", false) == Deliver(first + "\n" + middle + last, [])
    ensures ReadLines([first, middle, last], "", false) != Message(first + "\n" + middle + "\n" + last, [])
  {
    LineChecks(first);
    LineChecks(middle);
    LineChecks(last);
    TrimSize(first + "\n" + middle + last);
    assert [first, middle, last] == [first] + ([middle] + ([last] + []));
    ReadTurn(first, [middle] + ([last] + []), "", false);
    ReadTurn(middle, [last] + [], first + "\n", true);
    ReadTurn(last, [], first + "\n" + middle, true);
  }
}
