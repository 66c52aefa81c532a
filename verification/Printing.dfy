/** Printing key/value pairs and reading the values back (out/pair.go, cparser/cparser.go). */
module Printing {
  import opened Text
  import opened Scanner
  import opened PipeSplit

  /** The replacement pair.String makes for one character of a one-line value. */
  function EscapeChar(c: char): string {
    if c == '\\' then "\\\\"
    else if c == '"' then "\\\""
    else if c == '\r' then "\\r"
    else if c == '\t' then "\\t"
    else [c]
  }

  function Escape(s: string): string {
    if s == "" then "" else EscapeChar(s[0]) + Escape(s[1..])
  }

  function Quoted(value: string): string {
    "\"" + Escape(value) + "\""
  }

  function BlockValue(value: string): string {
    "<<\n" + value + "\n>>"
  }

  datatype Pair = Pair(key: string, value: string) {
    function ValueText(): string {
      if '\n' in value then BlockValue(value) else Quoted(value)
    }

    function String(): string {
      key + "=" + ValueText()
    }
  }

  /** What a backslash followed by `c` stands for inside double quotes. */
  function Unescaped(c: char): string {
    match c
    case '\\' => "\\"
    case '"' => "\""
    case 'n' => "\n"
    case 'r' => "\r"
    case 't' => "\t"
    case _ => ['\\', c]
  }

  function Unescape(s: string): string {
    if s == "" then ""
    else if s[0] == '\\' && |s| > 1 then Unescaped(s[1]) + Unescape(s[2..])
    else [s[0]] + Unescape(s[1..])
  }

  lemma {:induction false} UnescapeWithoutBackslash(s: string)
    requires '\\' !in s
    ensures Unescape(s) == s
    decreases s
  {
    if s != "" {
      UnescapeWithoutBackslash(s[1..]);
      assert s == [s[0]] + s[1..];
    }
  }

  /** `r` is the decoded form of `s[..i]`, and `i` is not inside an escape. */
  ghost predicate Decoded(s: string, i: nat, r: string) {
    i <= |s| && r + Unescape(s[i..]) == Unescape(s)
  }

  lemma DecodedTurn(s: string, i: nat, r: string)
    requires i < |s| && Decoded(s, i, r)
    ensures if s[i] == '\\' && i + 1 < |s| then Decoded(s, i + 2, r + Unescaped(s[i + 1]))
            else Decoded(s, i + 1, r + [s[i]])
  {
  }

  method UnescapeDoubleQuoted(s: string) returns (r: string)
    ensures r == Unescape(s)
  {
    if '\\' !in s {
      UnescapeWithoutBackslash(s);
      return s;
    }
    r := "";
    var i: nat := 0;
    assert Decoded(s, 0, "");
    while i < |s|
      invariant i <= |s| && Decoded(s, i, r)
    {
      DecodedTurn(s, i, r);
      if s[i] == '\\' && i + 1 < |s| {
        match s[i + 1] {
          case '\\' => r := r + "\\";
          case '"' => r := r + "\"";
          case 'n' => r := r + "\n";
          case 'r' => r := r + "\r";
          case 't' => r := r + "\t";
          case _ => r := r + ['\\', s[i + 1]];
        }
        i := i + 2;
      } else {
        r := r + [s[i]];
        i := i + 1;
      }
    }
    DecodedAll(s, i, r);
  }

  lemma DecodedAll(s: string, i: nat, r: string)
    requires i == |s| && Decoded(s, i, r)
    ensures r == Unescape(s)
  {
  }

  predicate Surrounded(s: string, mark: char) {
    |s| >= 2 && s[0] == mark && s[|s| - 1] == mark
  }

  function UnquoteValue(s: string): string {
    if Surrounded(s, '"') then Unescape(s[1..|s| - 1])
    else if Surrounded(s, '\'') then s[1..|s| - 1]
    else s
  }

  lemma {:induction false} UnescapeEscape(s: string)
    ensures Unescape(Escape(s)) == s
  {
    if s != "" {
      UnescapeEscape(s[1..]);
      UnescapeFirst(s[0], Escape(s[1..]));
      assert s == [s[0]] + s[1..];
    }
  }

  lemma UnescapeFirst(c: char, rest: string)
    ensures Unescape(EscapeChar(c) + rest) == [c] + Unescape(rest)
  {
    var e := EscapeChar(c) + rest;
    if |EscapeChar(c)| == 2 {
      assert e[0] == '\\' && e[2..] == rest;
      assert Unescaped(e[1]) == [c];
    } else {
      assert e[1..] == rest;
    }
  }

  lemma UnquoteDouble(s: string)
    ensures UnquoteValue("\"" + s + "\"") == Unescape(s)
  {
    var q := "\"" + s + "\"";
    assert q[1..|q| - 1] == s;
  }

  lemma UnquoteSingle(s: string)
    ensures UnquoteValue("'" + s + "'") == s
  {
    var q := "'" + s + "'";
    assert q[1..|q| - 1] == s;
  }

  lemma {:induction false} EscapeVisible(s: string)
    ensures '\r' !in Escape(s) && '\t' !in Escape(s)
  {
    if s != "" {
      EscapeVisible(s[1..]);
    }
  }

  /** Unquoting gives back the value that was printed in quotes, whatever its characters; no CR or tab is printed as such. */
  lemma UnquotePrinted(value: string)
    ensures UnquoteValue(Quoted(value)) == value
    ensures '\r' !in Quoted(value) && '\t' !in Quoted(value)
  {
    UnescapeEscape(value);
    EscapeVisible(value);
    UnquoteDouble(Escape(value));
  }

  /** A text with all five characters that have an escape written as such, newlines too. */
  function EscapeAll(s: string): string {
    if s == "" then "" else (if s[0] == '\n' then "\\n" else EscapeChar(s[0])) + EscapeAll(s[1..])
  }

  /** Unquoting decodes each of the five escapes, as other writers may use them. */
  lemma {:induction false} UnescapeAll(s: string)
    ensures Unescape(EscapeAll(s)) == s
  {
    if s != "" {
      UnescapeAll(s[1..]);
      var rest := EscapeAll(s[1..]);
      if s[0] == '\n' {
        var e := "\\n" + rest;
        assert e[0] == '\\' && e[1] == 'n' && e[2..] == rest;
      } else {
        UnescapeFirst(s[0], rest);
      }
      assert s == [s[0]] + s[1..];
    }
  }

  /** What is in double quotes is decoded, what is in single quotes is taken as it is, and so is what is in neither. */
  lemma UnquoteForms(s: string)
    ensures UnquoteValue("\"" + EscapeAll(s) + "\"") == s
    ensures UnquoteValue("'" + s + "'") == s
    ensures (s == "" || (s[0] != '"' && s[0] != '\'') || |s| < 2 || s[0] != s[|s| - 1]) ==> UnquoteValue(s) == s
  {
    UnescapeAll(s);
    UnquoteDouble(EscapeAll(s));
    UnquoteSingle(s);
  }

  // How the stage scanner passes over printed pairs.

  /** Characters without a meaning to the scanner or the framing. */
  predicate Plain(s: string) {
    forall i :: 0 <= i < |s| ==> !IsSpace(s[i]) && s[i] !in "'\"[]{}|<>="
  }

  /** The scanner goes from one state to another over `s` and cuts nothing. */
  ghost predicate Passes(q: Scan, s: string, q': Scan) {
    Uncut(STAGES, q, s) && Run(STAGES, q, s) == q'
  }

  lemma PassesConcat(q: Scan, a: string, q1: Scan, b: string, q2: Scan)
    requires Passes(q, a, q1) && Passes(q1, b, q2)
    ensures Passes(q, a + b, q2)
  {
    UncutConcat(STAGES, q, a, b);
    RunConcat(STAGES, q, a, b);
  }

  lemma PassesChar(q: Scan, c: char)
    requires !Cut(q, c)
    ensures Passes(q, [c], Step(q, c))
  {
  }

  lemma {:induction false} PassesPlain(s: string)
    requires Plain(s)
    ensures Passes(START, s, START)
    decreases s
  {
    if s != "" {
      assert Step(START, s[0]) == START;
      PassesPlain(s[1..]);
    }
  }

  const IN_DOUBLE := Scan(false, true, 0, 0, Other)

  predicate InDouble(q: Scan) {
    (q.tail.Other? || q.tail.Eq?) && q.(tail := Other) == IN_DOUBLE
  }

  lemma PassesEscapedChar(q: Scan, c: char) returns (q': Scan)
    requires InDouble(q)
    ensures InDouble(q') && Passes(q, EscapeChar(c), q')
  {
    var e := EscapeChar(c);
    var q1 := Step(q, e[0]);
    PassesChar(q, e[0]);
    if |e| == 2 {
      q' := Step(q1, e[1]);
      PassesChar(q1, e[1]);
      PassesConcat(q, [e[0]], q1, [e[1]], q');
      assert e == [e[0]] + [e[1]];
    } else {
      q' := q1;
      assert e == [e[0]];
    }
  }

  lemma {:induction false} PassesEscaped(q: Scan, s: string) returns (q': Scan)
    requires InDouble(q)
    ensures InDouble(q') && Passes(q, Escape(s), q')
    decreases s
  {
    if s == "" {
      q' := q;
    } else {
      var q1 := PassesEscapedChar(q, s[0]);
      q' := PassesEscaped(q1, s[1..]);
      PassesConcat(q, EscapeChar(s[0]), q1, Escape(s[1..]), q');
    }
  }

  const AFTER_EQ := Scan(false, false, 0, 0, Eq)

  lemma PassesQuoted(value: string)
    ensures Passes(AFTER_EQ, Quoted(value), START)
  {
    PassesChar(AFTER_EQ, '"');
    assert Step(AFTER_EQ, '"') == IN_DOUBLE;
    var q := PassesEscaped(IN_DOUBLE, value);
    PassesChar(q, '"');
    PassesConcat(AFTER_EQ, "\"", IN_DOUBLE, Escape(value), q);
    PassesConcat(AFTER_EQ, "\"" + Escape(value), q, "\"", START);
  }

  /** No line of `s` begins with ">>". */
  predicate NoCloser(s: string, lineStart: bool) {
    s == "" || (!(lineStart && ">>" <= s) && NoCloser(s[1..], s[0] == '\n'))
  }

  const IN_BLOCK := Scan(false, false, 0, 0, Block(false, false))

  predicate InBlock(q: Scan) {
    q.tail.Block? && q.(tail := Block(false, false)) == IN_BLOCK
  }

  lemma {:induction false} PassesBlockText(q: Scan, s: string) returns (q': Scan)
    requires InBlock(q) && NoCloser(s, q.tail.lineStart)
    requires q.tail.gt && s != "" ==> s[0] != '>'
    ensures InBlock(q') && Passes(q, s, q')
    decreases s
  {
    if s == "" {
      q' := q;
    } else {
      q' := PassesBlockText(Step(q, s[0]), s[1..]);
    }
  }

  lemma PassesBlock(value: string)
    requires NoCloser(value, true)
    ensures Passes(AFTER_EQ, BlockValue(value), START)
  {
    var q1 := Step(AFTER_EQ, '<');
    var q2 := Step(q1, '<');
    var q3 := Step(q2, '\n');
    PassesChar(AFTER_EQ, '<');
    PassesChar(q1, '<');
    PassesConcat(AFTER_EQ, "<", q1, "<", q2);
    PassesChar(q2, '\n');
    PassesConcat(AFTER_EQ, "<<", q2, "\n", q3);
    var q4 := PassesBlockText(q3, value);
    PassesConcat(AFTER_EQ, "<<\n", q3, value, q4);
    var q5 := Step(q4, '\n');
    PassesChar(q4, '\n');
    PassesConcat(AFTER_EQ, "<<\n" + value, q4, "\n", q5);
    var q6 := Step(q5, '>');
    PassesChar(q5, '>');
    PassesChar(q6, '>');
    PassesConcat(q5, ">", q6, ">", START);
    assert ">" + ">" == ">>" && "<" + "<" == "<<" && "<<" + "\n" == "<<\n";
    PassesConcat(AFTER_EQ, "<<\n" + value + "\n", q5, ">>", START);
    assert "<<\n" + value + "\n" + ">>" == BlockValue(value);
  }

  /** A printed pair leaves the scanner as it found it and is never cut, whatever bars and quotes its value holds. */
  lemma PairIsNeutral(p: Pair)
    requires Plain(p.key)
    requires '\n' in p.value ==> NoCloser(p.value, true)
    ensures Passes(START, p.String(), START)
  {
    PassesPlain(p.key);
    PassesChar(START, '=');
    PassesConcat(START, p.key, START, "=", AFTER_EQ);
    if '\n' in p.value {
      PassesBlock(p.value);
    } else {
      PassesQuoted(p.value);
    }
    PassesConcat(START, p.key + "=", AFTER_EQ, p.ValueText(), START);
  }
}
