/**
 Which bars separate stages, told without the scanner: a text is read as characters,
 quoted parts and blocks, and a bar counts outside all of them and outside brackets
 and braces (splitPipe in spored/internal/message/pipe.go).
 */
module PipeGrammar {
  import opened Text
  import opened Scanner
  import opened PipeSplit
  import opened PipeLaws
  import opened Printing

  /** A character, a part in quotes, or a block from "=<<" to a line that begins with ">>". */
  datatype Part = Char(c: char) | Single(text: string) | Double(text: string) | BlockOf(text: string)

  function Show(p: Part): string {
    match p
    case Char(c) => [c]
    case Single(t) => "'" + t + "'"
    case Double(t) => "\"" + t + "\""
    case BlockOf(t) => "=<<" + t + ">>"
  }

  function ShowAll(ps: seq<Part>): string {
    if ps == [] then "" else Show(ps[0]) + ShowAll(ps[1..])
  }

  /** A line of the block, the first one aside, begins with ">>". */
  predicate Ends(t: string) {
    exists i :: 0 <= i < |t| && t[i] == '\n' && ">>" <= t[i + 1..]
  }

  predicate BlockText(t: string) {
    t != "" && t[|t| - 1] == '\n' && !Ends(t)
  }

  /** How many brackets are open behind the part: closing one that is not open does nothing. */
  function Level(n: nat, p: Part, open: char, close: char): nat {
    if p == Char(open) then n + 1 else if p == Char(close) && n > 0 then n - 1 else n
  }

  function Brackets(n: nat, p: Part): nat {
    Level(n, p, '[', ']')
  }

  function Braces(n: nat, p: Part): nat {
    Level(n, p, '{', '}')
  }

  /**
   The part is one of the text that shows it and goes on with `rest`: quotes are never
   single characters, and outside brackets and braces "=<<" always is a block, which it is
   nowhere else.
   */
  predicate Fits(p: Part, brackets: nat, braces: nat, rest: string) {
    match p
    case Char(c) => c != '\'' && c != '"' && !(c == '=' && brackets == braces == 0 && "<<" <= rest)
    case Single(t) => '\'' !in t
    case Double(t) => Escaped(t)
    case BlockOf(t) => brackets == braces == 0 && BlockText(t)
  }

  predicate Proper(ps: seq<Part>, brackets: nat, braces: nat) {
    ps == [] ||
    (&& Fits(ps[0], brackets, braces, ShowAll(ps[1..]))
     && Proper(ps[1..], Brackets(brackets, ps[0]), Braces(braces, ps[0])))
  }

  /** The brackets, and the braces, that are open behind all the parts. */
  function Depths(ps: seq<Part>, brackets: nat, braces: nat): (nat, nat) {
    if ps == [] then (brackets, braces) else Depths(ps[1..], Brackets(brackets, ps[0]), Braces(braces, ps[0]))
  }

  /** The texts between the bars that stand outside all brackets and braces. */
  function BetweenBars(ps: seq<Part>, brackets: nat, braces: nat): (ss: seq<string>)
    ensures |ss| > 0
  {
    if ps == [] then [""]
    else
      var rest := BetweenBars(ps[1..], Brackets(brackets, ps[0]), Braces(braces, ps[0]));
      if ps[0] == Char('|') && brackets == braces == 0 then [""] + rest
      else [Show(ps[0]) + rest[0]] + rest[1..]
  }

  // The scanner over the parts.

  /** The scanner stands outside quotes and blocks, and `rest` does not go on with a "=<<" that it has begun to read. */
  ghost predicate Stands(q: Scan, brackets: nat, braces: nat, rest: string) {
    && !q.single && !q.double && q.brackets == brackets && q.braces == braces
    && match q.tail
       case Other => true
       case Eq => brackets == braces == 0 ==> !("<<" <= rest)
       case EqLt => !("<" <= rest)
       case _ => false
  }

  lemma {:induction false} ReadsSingle(q: Scan, t: string) returns (q': Scan)
    requires q.single && !q.double && (q.tail.Other? || q.tail.Eq?) && '\'' !in t
    ensures Passes(q, t, q') && q' == q.(tail := q'.tail) && (q'.tail.Other? || q'.tail.Eq?)
    decreases |t|
  {
    if t == "" {
      q' := q;
    } else {
      q' := ReadsSingle(Step(q, t[0]), t[1..]);
    }
  }

  lemma {:induction false} ReadsDouble(q: Scan, t: string) returns (q': Scan)
    requires q.double && !q.single && (q.tail.Other? || q.tail.Eq?) && Escaped(t)
    ensures Passes(q, t, q') && q' == q.(tail := q'.tail) && (q'.tail.Other? || q'.tail.Eq?)
    decreases |t|
  {
    if t == "" {
      q' := q;
    } else if t[0] == '\\' {
      var q1 := Step(q, t[0]);
      q' := ReadsDouble(Step(q1, t[1]), t[2..]);
      PassesChar(q, t[0]);
      PassesChar(q1, t[1]);
      PassesConcat(q, [t[0]], q1, [t[1]], Step(q1, t[1]));
      PassesConcat(q, [t[0]] + [t[1]], Step(q1, t[1]), t[2..], q');
      assert t == [t[0]] + [t[1]] + t[2..];
    } else {
      q' := ReadsDouble(Step(q, t[0]), t[1..]);
    }
  }

  /** Within a block: `t` begins at a line start or not, or behind the ">" that begins a line. */
  ghost predicate StaysInBlock(t: string, lineStart: bool, gt: bool) {
    !Ends(t) && (lineStart ==> !(">>" <= t)) && (gt ==> !(">" <= t))
  }

  lemma StaysNext(t: string, lineStart: bool, gt: bool)
    requires t != "" && StaysInBlock(t, lineStart, gt)
    ensures StaysInBlock(t[1..], t[0] == '\n', lineStart && t[0] == '>')
  {
    forall i | 0 <= i < |t[1..]|
      ensures t[1..][i] == t[i + 1] && t[1..][i + 1..] == t[i + 2..]
    {
    }
    EndsAtFirst(t);
    TwoFirst(t);
  }

  lemma EndsAtFirst(t: string)
    requires t != "" && !Ends(t)
    ensures t[0] == '\n' ==> !(">>" <= t[1..])
  {
  }

  lemma TwoFirst(t: string)
    requires t != ""
    ensures ">>" <= t <==> t[0] == '>' && ">" <= t[1..]
  {
    if t[0] == '>' && ">" <= t[1..] {
      assert t[1..][0] == t[1];
    }
  }

  /** Whether a line starts behind `t`. */
  function StartsLine(t: string, lineStart: bool): bool {
    if t == "" then lineStart else t[|t| - 1] == '\n'
  }

  lemma StartsNext(t: string, lineStart: bool)
    requires t != ""
    ensures StartsLine(t[1..], t[0] == '\n') == StartsLine(t, lineStart)
  {
  }

  lemma {:induction false} ReadsBlock(q: Scan, t: string) returns (q': Scan)
    requires InBlock(q) && !(q.tail.lineStart && q.tail.gt)
    requires StaysInBlock(t, q.tail.lineStart, q.tail.gt)
    ensures Passes(q, t, q') && InBlock(q') && !(q'.tail.lineStart && q'.tail.gt)
    ensures q'.tail.lineStart == StartsLine(t, q.tail.lineStart)
    decreases |t|
  {
    if t == "" {
      q' := q;
    } else {
      StaysNext(t, q.tail.lineStart, q.tail.gt);
      StartsNext(t, q.tail.lineStart);
      q' := ReadsBlock(Step(q, t[0]), t[1..]);
    }
  }

  lemma QuotedReads(q: Scan, p: Part, rest: string) returns (q': Scan)
    requires Stands(q, q.brackets, q.braces, Show(p) + rest)
    requires match p case Single(t) => '\'' !in t case Double(t) => Escaped(t) case _ => false
    ensures Passes(q, Show(p), q') && Stands(q', q.brackets, q.braces, rest)
  {
    var mark := Show(p)[0];
    var q1 := Step(q, mark);
    PassesChar(q, mark);
    var q2 := if p.Single? then q1 else q1;
    if p.Single? {
      q2 := ReadsSingle(q1, p.text);
    } else {
      q2 := ReadsDouble(q1, p.text);
    }
    q' := Step(q2, mark);
    PassesConcat(q, [mark], q1, p.text, q2);
    PassesChar(q2, mark);
    PassesConcat(q, [mark] + p.text, q2, [mark], q');
    assert Show(p) == [mark] + p.text + [mark];
  }

  lemma BlockReads(q: Scan, t: string, rest: string) returns (q': Scan)
    requires Stands(q, 0, 0, Show(BlockOf(t)) + rest) && BlockText(t)
    ensures Passes(q, Show(BlockOf(t)), q') && Stands(q', 0, 0, rest)
  {
    var q1 := Step(q, '=');
    var q2 := Step(q1, '<');
    PassesChar(q, '=');
    PassesChar(q1, '<');
    PassesConcat(q, "=", q1, "<", q2);
    PassesChar(q2, '<');
    PassesConcat(q, "=" + "<", q2, "<", IN_BLOCK);
    assert "=" + "<" + "<" == "=<<";
    var q3 := ReadsBlock(IN_BLOCK, t);
    PassesConcat(q, "=<<", IN_BLOCK, t, q3);
    var q4 := Step(q3, '>');
    PassesChar(q3, '>');
    q' := Step(q4, '>');
    PassesChar(q4, '>');
    PassesConcat(q3, ">", q4, ">", q');
    assert ">" + ">" == ">>";
    PassesConcat(q, "=<<" + t, q3, ">>", q');
  }

  lemma TwoLess(c: char, rest: string)
    ensures "<<" <= [c] + rest <==> c == '<' && "<" <= rest
  {
    if rest != "" {
      assert ([c] + rest)[1] == rest[0] && ([c] + rest)[0] == c;
    }
  }

  lemma CharReads(q: Scan, c: char, brackets: nat, braces: nat, rest: string)
    requires Stands(q, brackets, braces, [c] + rest)
    requires c != '\'' && c != '"' && !(c == '=' && brackets == braces == 0 && "<<" <= rest)
    ensures Cut(q, c) <==> c == '|' && brackets == braces == 0
    ensures Stands(Step(q, c), Brackets(brackets, Char(c)), Braces(braces, Char(c)), rest)
  {
    TwoLess(c, rest);
  }

  /** A part is a bar that cuts, or it is read without a cut. */
  lemma PartReads(q: Scan, p: Part, brackets: nat, braces: nat, rest: string) returns (q': Scan)
    requires Stands(q, brackets, braces, Show(p) + rest)
    requires Fits(p, brackets, braces, rest)
    ensures Stands(q', Brackets(brackets, p), Braces(braces, p), rest)
    ensures if p == Char('|') && brackets == braces == 0 then Cut(q, '|') && Step(q, '|') == q' else Passes(q, Show(p), q')
  {
    match p {
      case Char(c) =>
        CharReads(q, c, brackets, braces, rest);
        q' := Step(q, c);
        if !(c == '|' && brackets == braces == 0) {
          PassesChar(q, c);
        }
      case Single(_) => q' := QuotedReads(q, p, rest);
      case Double(_) => q' := QuotedReads(q, p, rest);
      case BlockOf(t) => q' := BlockReads(q, t, rest);
    }
  }

  lemma PiecesBehindBar(q: Scan, rest: string)
    requires Cut(q, '|')
    ensures Pieces(STAGES, q, "|" + rest) == [""] + Pieces(STAGES, Step(q, '|'), rest)
  {
    StagesReset();
    SeparatorFirst(STAGES, START, q, '|', rest);
  }

  /** Followed by a text that neither goes on with a "<" nor is cut, the parts give the pieces between their bars. */
  lemma {:induction false} PartsGivePieces(ps: seq<Part>, q: Scan, brackets: nat, braces: nat, tail: string) returns (q': Scan)
    requires Proper(ps, brackets, braces) && Stands(q, brackets, braces, ShowAll(ps) + tail)
    requires tail == "" || tail[0] != '<'
    ensures var (b, c) := Depths(ps, brackets, braces); Stands(q', b, c, tail)
    ensures Run(STAGES, q, ShowAll(ps)) == q'
    ensures Pieces(STAGES, q, ShowAll(ps)) == BetweenBars(ps, brackets, braces)
    decreases |ps|
  {
    if ps == [] {
      q' := q;
      assert "" + tail == tail;
    } else {
      var p, rest := ps[0], ShowAll(ps[1..]);
      Reassociate(Show(p), rest, tail);
      NotMoreOpen(rest, tail);
      var q1 := PartReads(q, p, brackets, braces, rest + tail);
      q' := PartsGivePieces(ps[1..], q1, Brackets(brackets, p), Braces(braces, p), tail);
      RunConcat(STAGES, q, Show(p), rest);
      if p == Char('|') && brackets == braces == 0 {
        PiecesBehindBar(q, rest);
        assert Run(STAGES, q, "|") == Run(STAGES, q1, "");
      } else {
        PiecesBehind(STAGES, q, Show(p), rest);
      }
    }
  }

  lemma NotMoreOpen(rest: string, tail: string)
    requires tail == "" || tail[0] != '<'
    ensures "<<" <= rest + tail ==> "<<" <= rest
  {
    if |rest| >= 2 {
      assert (rest + tail)[..2] == rest[..2];
    } else if tail != "" {
      assert (rest + tail)[|rest|] == tail[0];
    }
  }

  // Every text is made of such parts, but for a quote or block left open at its end.

  /** What is left behind the last part: nothing, or a quote or block that is never closed. */
  predicate Unclosed(tail: string, brackets: nat, braces: nat) {
    || tail == ""
    || (tail[0] == '\'' && '\'' !in tail[1..])
    || (tail[0] == '"' && NeverClosed(tail[1..]))
    || (brackets == braces == 0 && "=<<" <= tail && !Ends(tail[3..]))
  }

  lemma FindEnd(s: string) returns (k: nat)
    requires Ends(s)
    ensures k + 2 <= |s| && s[k..k + 2] == ">>" && BlockText(s[..k])
  {
    var i: nat :| i < |s| && s[i] == '\n' && ">>" <= s[i + 1..];
    var j := 0;
    while !(s[j] == '\n' && ">>" <= s[j + 1..])
      invariant j <= i
      decreases i - j
      invariant forall l :: 0 <= l < j ==> !(s[l] == '\n' && ">>" <= s[l + 1..])
    {
      j := j + 1;
    }
    k := j + 1;
    assert s[k..k + 2] == s[k..][..2];
    forall l | 0 <= l < |s[..k]| && s[..k][l] == '\n'
      ensures !(">>" <= s[..k][l + 1..])
    {
      if l < j {
        PrefixOfSlice(s, l + 1, k);
      }
    }
  }

  lemma PrefixOfSlice(s: string, i: nat, k: nat)
    requires i <= k <= |s|
    ensures ">>" <= s[..k][i..] ==> ">>" <= s[i..]
  {
    assert s[..k][i..] == s[i..][..k - i];
  }

  lemma ShowFirst(p: Part, ps: seq<Part>, tail: string)
    ensures ShowAll([p] + ps) + tail == Show(p) + (ShowAll(ps) + tail)
  {
    assert ([p] + ps)[1..] == ps;
    Reassociate(Show(p), ShowAll(ps), tail);
  }

  lemma Surrounding(s: string, a: nat, k: nat, b: nat)
    requires a + k + b <= |s|
    ensures s == s[..a] + s[a..][..k] + s[a + k..a + k + b] + s[a + k + b..]
  {
    assert s[a..][..k] == s[a..a + k];
  }

  lemma SliceOfDrop(s: string, a: nat, i: nat, j: nat)
    requires i <= j && a + j <= |s|
    ensures s[a..][i..j] == s[a + i..a + j]
  {
  }

  lemma FirstSingle(s: string) returns (t: string, rest: string)
    requires s != "" && s[0] == '\'' && '\'' in s[1..]
    ensures s == Show(Single(t)) + rest && |rest| < |s| && '\'' !in t
  {
    var k := FindMark(s[1..], '\'');
    t, rest := s[1..][..k], s[k + 2..];
    Surrounding(s, 1, k, 1);
    assert s[..1] == "'" && s[k + 1..k + 2] == "'";
  }

  lemma FirstDouble(s: string) returns (t: string, rest: string)
    requires s != "" && s[0] == '"' && !NeverClosed(s[1..])
    ensures s == Show(Double(t)) + rest && |rest| < |s| && Escaped(t)
  {
    var k := FindQuote(s[1..]);
    t, rest := s[1..][..k], s[k + 2..];
    Surrounding(s, 1, k, 1);
    assert s[..1] == "\"" && s[k + 1..k + 2] == "\"";
  }

  lemma FirstBlock(s: string) returns (t: string, rest: string)
    requires "=<<" <= s && Ends(s[3..])
    ensures s == Show(BlockOf(t)) + rest && |rest| < |s| && BlockText(t)
  {
    var k := FindEnd(s[3..]);
    t, rest := s[3..][..k], s[k + 5..];
    SliceOfDrop(s, 3, k, k + 2);
    assert s[..3] == "=<<";
    Surrounding(s, 3, k, 2);
  }

  /** The first part of a text that does not leave a quote or block open. */
  lemma FirstPart(s: string, brackets: nat, braces: nat) returns (p: Part, rest: string)
    requires !Unclosed(s, brackets, braces)
    ensures s == Show(p) + rest && |rest| < |s| && Fits(p, brackets, braces, rest)
  {
    if s[0] == '\'' {
      var t;
      t, rest := FirstSingle(s);
      p := Single(t);
    } else if s[0] == '"' {
      var t;
      t, rest := FirstDouble(s);
      p := Double(t);
    } else if brackets == braces == 0 && "=<<" <= s {
      var t;
      t, rest := FirstBlock(s);
      p := BlockOf(t);
    } else {
      p, rest := Char(s[0]), s[1..];
      assert s == [s[0]] + s[1..];
      if s[0] == '=' && "<<" <= s[1..] {
        assert s[..3] == "=" + s[1..][..2];
      }
    }
  }

  lemma {:induction false} TextParts(s: string, brackets: nat, braces: nat) returns (ps: seq<Part>, tail: string)
    ensures s == ShowAll(ps) + tail && Proper(ps, brackets, braces)
    ensures var (b, c) := Depths(ps, brackets, braces); Unclosed(tail, b, c)
    decreases |s|
  {
    if Unclosed(s, brackets, braces) {
      ps, tail := [], s;
      assert "" + s == s;
    } else {
      var p, rest := FirstPart(s, brackets, braces);
      var more;
      more, tail := TextParts(rest, Brackets(brackets, p), Braces(braces, p));
      ps := [p] + more;
      ShowFirst(p, more, tail);
      assert ps[1..] == more;
      assert "<<" <= ShowAll(more) ==> "<<" <= ShowAll(more) + tail;
    }
  }

  lemma {:induction false} DoubleLeftOpen(q: Scan, t: string)
    requires q.double && !q.single && (q.tail.Other? || q.tail.Eq?) && NeverClosed(t)
    ensures Uncut(STAGES, q, t)
    decreases |t|
  {
    if t != "" {
      if t[0] == '\\' && |t| > 1 {
        DoubleLeftOpen(Step(Step(q, t[0]), t[1]), t[2..]);
        assert t[1..][0] == t[1] && t[1..][1..] == t[2..];
      } else if t[0] != '\\' {
        DoubleLeftOpen(Step(q, t[0]), t[1..]);
      }
    }
  }

  /** A quote or block left open is read to the end without a cut. */
  lemma TailReads(q: Scan, brackets: nat, braces: nat, tail: string)
    requires Stands(q, brackets, braces, tail) && Unclosed(tail, brackets, braces)
    ensures Uncut(STAGES, q, tail)
  {
    if tail != "" {
      var rest := tail[1..];
      if tail[0] == '\'' {
        var _ := ReadsSingle(Step(q, tail[0]), rest);
      } else if tail[0] == '"' {
        DoubleLeftOpen(Step(q, tail[0]), rest);
      } else {
        var q1 := Step(q, '=');
        var q2 := Step(q1, '<');
        PassesChar(q, '=');
        PassesChar(q1, '<');
        PassesConcat(q, "=", q1, "<", q2);
        PassesChar(q2, '<');
        PassesConcat(q, "=" + "<", q2, "<", IN_BLOCK);
        assert "=" + "<" + "<" == "=<<";
        var _ := ReadsBlock(IN_BLOCK, tail[3..]);
        UncutConcat(STAGES, q, "=<<", tail[3..]);
        assert tail == "=<<" + tail[3..];
      }
    }
  }

  /**
   Every text has its parts, and its pieces are the texts between the bars outside their
   brackets and braces: a bar within quotes, within a block or within brackets never cuts,
   every other one does.
   */
  lemma PiecesExact(raw: string) returns (ps: seq<Part>, tail: string)
    ensures raw == ShowAll(ps) + tail && Proper(ps, 0, 0)
    ensures var (b, c) := Depths(ps, 0, 0); Unclosed(tail, b, c)
    ensures Pieces(STAGES, START, raw) == WithTail(BetweenBars(ps, 0, 0), tail)
  {
    ps, tail := TextParts(raw, 0, 0);
    var (b, c) := Depths(ps, 0, 0);
    TailStart(tail, b, c);
    var q := PartsGivePieces(ps, START, 0, 0, tail);
    TailReads(q, b, c, tail);
    PiecesBefore(STAGES, START, ShowAll(ps), tail);
  }

  lemma TailStart(tail: string, brackets: nat, braces: nat)
    requires Unclosed(tail, brackets, braces)
    ensures tail == "" || tail[0] != '<'
  {
  }

  /** The stages are those texts, trimmed, without an empty last one. */
  lemma StagesExact(raw: string) returns (ps: seq<Part>, tail: string)
    ensures raw == ShowAll(ps) + tail && Proper(ps, 0, 0)
    ensures var (b, c) := Depths(ps, 0, 0); Unclosed(tail, b, c)
    ensures var all := WithTail(BetweenBars(ps, 0, 0), tail);
            var n := |all| - 1;
            Split(raw) == TrimAll(if all[n] == "" then all[..n] else all)
  {
    ps, tail := PiecesExact(raw);
  }

  /**
   A text that closes all its brackets and braces, with no bar outside them, is the first
   stage of whatever follows behind a bar, trimmed.
   */
  lemma FirstStage(ps: seq<Part>, rest: string)
    requires Proper(ps, 0, 0) && Depths(ps, 0, 0) == (0, 0) && BetweenBars(ps, 0, 0) == [ShowAll(ps)]
    ensures Split(ShowAll(ps) + "|" + rest) == [Trim(ShowAll(ps))] + Split(rest)
  {
    var q := PartsGivePieces(ps, START, 0, 0, "|" + rest);
    StagesReset();
    UncutIsOnePiece(STAGES, START, ShowAll(ps));
    PiecesFirst(STAGES, START, START, ShowAll(ps), '|', rest);
    KeptFirst(ShowAll(ps), Pieces(STAGES, START, rest));
  }

}
