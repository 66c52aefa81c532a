/** Which printed arrays are read back unchanged, and what tokenising keeps of any text. */
module ArrayLaws {
  import opened Text
  import opened Scanner
  import opened Printing
  import opened ArrayTokens
  import opened Arrays

  // Tokens keep everything but the top-level blanks.

  function WithoutBlanks(q: Group, s: string): string
    decreases s
  {
    if s == "" then ""
    else (if Cut(q, s[0]) then "" else [s[0]]) + WithoutBlanks(Step(q, s[0]), s[1..])
  }

  function Flat(ss: seq<string>): string {
    if ss == [] then "" else ss[0] + Flat(ss[1..])
  }

  lemma {:induction false} FlatNonEmpty(ps: seq<string>)
    ensures Flat(NonEmpty(ps)) == Flat(ps)
    ensures forall i :: 0 <= i < |NonEmpty(ps)| ==> NonEmpty(ps)[i] != "" && NonEmpty(ps)[i] in ps
    decreases |ps|
  {
    if ps != [] {
      FlatNonEmpty(ps[1..]);
      var rest := NonEmpty(ps[1..]);
      if ps[0] == "" {
        assert NonEmpty(ps) == rest;
        assert forall x :: x in ps[1..] ==> x in ps;
      } else {
        assert ([ps[0]] + rest)[1..] == rest;
        assert forall x :: x in ps[1..] ==> x in ps;
      }
    }
  }

  lemma {:induction false} FlatPieces(q: Group, s: string)
    ensures Flat(Pieces(LOOSE, q, s)) == WithoutBlanks(q, s)
    decreases s
  {
    if s == "" {
      assert Flat([""]) == "" + Flat([""][1..]);
    } else {
      FlatPieces(Step(q, s[0]), s[1..]);
      var rest := Pieces(LOOSE, Step(q, s[0]), s[1..]);
      if Cut(q, s[0]) {
        assert ([""] + rest)[1..] == rest;
      } else {
        assert Flat([[s[0]] + rest[0]] + rest[1..]) == [s[0]] + rest[0] + Flat(rest[1..]);
        assert [s[0]] + rest[0] + Flat(rest[1..]) == [s[0]] + (rest[0] + Flat(rest[1..]));
      }
    }
  }

  /** The tokens are non-empty, hold no top-level blank, and together are the text without those blanks. */
  lemma TokenizedConserves(raw: string)
    requires Tokenized(raw).Tokens?
    ensures var ts := Tokenized(raw).tokens;
            && Flat(ts) == WithoutBlanks(Bare, raw)
            && forall i :: 0 <= i < |ts| ==> ts[i] != "" && Uncut(LOOSE, Bare, ts[i])
  {
    var ps := Pieces(LOOSE, Bare, raw);
    LooseResets();
    PiecesUncut(LOOSE, Bare, Bare, raw);
    FlatNonEmpty(ps);
    FlatPieces(Bare, raw);
  }

  // The items of a printed array in front of the tokeniser, where its commas are blanks.

  /** The printed item opens and closes its quotes, and holds no blank outside them. */
  predicate Whole(v: string) {
    Uncut(LOOSE, Bare, Item(v)) && Run(LOOSE, Bare, Item(v)).Bare?
  }

  function Row(ws: seq<string>): string {
    Join(Items(ws), "  ")
  }

  function Behind(t: string, o: Outcome): Outcome {
    match o
    case Tokens(ts) => Tokens([t] + ts)
    case Unterminated(_) => o
  }

  lemma BlankOff(rest: string)
    ensures Tokenized(" " + rest) == Tokenized(rest)
  {
    LooseResets();
    var ps := Pieces(LOOSE, Bare, rest);
    assert "" + " " + rest == " " + rest;
    PiecesFirst(LOOSE, Bare, Bare, "", ' ', rest);
    assert ([""] + ps)[1..] == ps;
    assert (" " + rest)[1..] == rest;
  }

  /** An uncut text that closes its groups is the first token when a blank follows. */
  lemma TokenOff(t: string, rest: string)
    requires t != "" && Run(LOOSE, Bare, t) == Bare && Uncut(LOOSE, Bare, t)
    ensures Tokenized(t + " " + rest) == Behind(t, Tokenized(rest))
  {
    LooseResets();
    var ps := Pieces(LOOSE, Bare, rest);
    PiecesFirst(LOOSE, Bare, Bare, t, ' ', rest);
    assert ([t] + ps)[1..] == ps;
    RunConcat(LOOSE, Bare, t + " ", rest);
    PiecesSnoc(LOOSE, Bare, t, ' ');
  }

  lemma RowFirst(ws: seq<string>)
    requires |ws| > 1
    ensures Row(ws) == Item(ws[0]) + " " + (" " + Row(ws[1..]))
  {
    assert Items(ws)[1..] == Items(ws[1..]);
    TwoBlanks(Item(ws[0]), Row(ws[1..]));
  }

  lemma TwoBlanks(t: string, rest: string)
    ensures t + "  " + rest == t + " " + (" " + rest)
  {
  }

  lemma FirstPieceKept(ps: seq<string>)
    requires ps != [] && ps[0] != ""
    ensures NonEmpty(ps) == [ps[0]] + NonEmpty(ps[1..])
  {
  }

  /** A whole item is its own token. */
  lemma WholeFirst(ws: seq<string>)
    requires ws != [] && Whole(ws[0])
    ensures Tokenized(Row(ws)) ==
            if |ws| == 1 then Tokens([Item(ws[0])]) else Behind(Item(ws[0]), Tokenized(Row(ws[1..])))
  {
    var first := Item(ws[0]);
    if |ws| == 1 {
      UncutIsOnePiece(LOOSE, Bare, first);
      FirstPieceKept([first]);
      assert NonEmpty([first][1..]) == [];
    } else {
      RowFirst(ws);
      TokenOff(first, " " + Row(ws[1..]));
      BlankOff(Row(ws[1..]));
    }
  }

  lemma RowBegins(ws: seq<string>)
    requires ws != []
    ensures Item(ws[0]) <= Row(ws)
  {
    if |ws| > 1 {
      RowFirst(ws);
    }
  }

  /** What is known of the first token of any text that begins with one. */
  lemma FirstToken(s: string)
    requires Tokenized(s).Tokens? && s != "" && !Blank(s[0])
    ensures var ts := Tokenized(s).tokens;
            ts != [] && ts[0] != "" && ts[0] <= s && Uncut(LOOSE, Bare, ts[0]) && Run(LOOSE, Bare, ts[0]) == Bare
  {
    var ps, cs := Pieces(LOOSE, Bare, s), Cuts(LOOSE, Bare, s);
    LooseResets();
    PiecesUncut(LOOSE, Bare, Bare, s);
    PiecesEndAtCuts(LOOSE, Bare, s);
    PiecesWeave(LOOSE, Bare, s);
    FirstPieceKept(ps);
    if cs == "" {
      assert ps[0] == s;
    } else {
      assert Cut(Run(LOOSE, Bare, ps[0]), cs[0]);
      WeaveBegins(ps, cs);
    }
  }

  lemma WeaveBegins(ps: seq<string>, cs: string)
    requires |ps| == |cs| + 1
    ensures ps[0] <= Weave(ps, cs)
  {
  }

  lemma EmptyRow()
    ensures Tokenized(Row([])) == Tokens([])
  {
    assert Items([]) == [];
    assert Pieces(LOOSE, Bare, "") == [""];
    assert [""][1..] == [];
  }

  /** A row is read as its items, one token each, exactly when every item is whole. */
  lemma {:induction false} RowIsItems(ws: seq<string>)
    ensures Tokenized(Row(ws)) == Tokens(Items(ws)) <==> forall i :: 0 <= i < |ws| ==> Whole(ws[i])
    decreases |ws|
  {
    if ws == [] {
      EmptyRow();
    } else if Whole(ws[0]) {
      WholeFirst(ws);
      RowIsItems(ws[1..]);
      assert Items(ws) == [Item(ws[0])] + Items(ws[1..]);
      WholeRest(ws);
    } else if Tokenized(Row(ws)) == Tokens(Items(ws)) {
      RowBegins(ws);
      FirstToken(Row(ws));
    }
  }

  lemma WholeRest(ws: seq<string>)
    requires ws != [] && Whole(ws[0])
    ensures (forall i :: 0 <= i < |ws| ==> Whole(ws[i])) <==> forall i :: 0 <= i < |ws[1..]| ==> Whole(ws[1..][i])
  {
    if forall i :: 0 <= i < |ws[1..]| ==> Whole(ws[1..][i]) {
      assert forall i :: 0 < i < |ws| ==> ws[i] == ws[1..][i - 1];
    }
  }

  function Blanked(vs: seq<string>): (ws: seq<string>)
    ensures |ws| == |vs|
    ensures forall i :: 0 <= i < |vs| ==> ws[i] == BlankCommas(vs[i])
  {
    seq(|vs|, i requires 0 <= i < |vs| => BlankCommas(vs[i]))
  }

  lemma {:induction false} BlankCommasJoin(vs: seq<string>)
    ensures BlankCommas(Join(Items(vs), ", ")) == Row(Blanked(vs))
    decreases |vs|
  {
    if |vs| == 1 {
      assert BlankCommas(Item(vs[0])) == Item(BlankCommas(vs[0]));
    } else if |vs| > 1 {
      BlankCommasJoin(vs[1..]);
      var rest := Join(Items(vs[1..]), ", ");
      assert Items(vs)[1..] == Items(vs[1..]) && Blanked(vs)[1..] == Blanked(vs[1..]);
      assert Items(Blanked(vs))[1..] == Items(Blanked(vs[1..]));
      assert BlankCommas(Item(vs[0]) + ", " + rest) == Item(BlankCommas(vs[0])) + "  " + BlankCommas(rest);
    }
  }

  /** What the tokeniser gets to see of a printed array. */
  lemma TokeniserSees(vs: seq<string>)
    ensures BlankCommas(Unbracketed(Trim(ArrayText(vs)))) == Row(Blanked(vs))
  {
    BracketsOff(Join(Items(vs), ", "));
    BlankCommasJoin(vs);
  }

  /** An optional bracket at each end: without one, no white space and no such bracket stands there. */
  predicate Bracketed(open: string, inner: string, close: string) {
    && (open == "[" || (open == "" && NotFirst(inner + close)))
    && (close == "]" || (close == "" && NotLast(inner)))
  }

  predicate NotFirst(s: string) {
    s == "" || (!IsSpace(s[0]) && s[0] != '[')
  }

  predicate NotLast(s: string) {
    s == "" || (!IsSpace(s[|s| - 1]) && s[|s| - 1] != ']')
  }

  lemma BracketedTrimmed(open: string, inner: string, close: string)
    requires Bracketed(open, inner, close)
    ensures Trimmed(open + inner + close)
  {
    var rest := inner + close;
    assert open + inner + close == open + rest;
    assert close == "" ==> rest == inner;
  }

  lemma FirstLast(s: string)
    ensures "[" <= s <==> s != "" && s[0] == '['
    ensures HasSuffix(s, "]") <==> s != "" && s[|s| - 1] == ']'
  {
  }

  lemma BracketedInner(open: string, inner: string, close: string)
    requires Bracketed(open, inner, close)
    ensures Unbracketed(open + inner + close) == inner
  {
    var rest := inner + close;
    FirstLast(rest);
    ClosedInner(inner, close);
    assert open + inner + close == open + rest;
    if open == "" {
      assert open + rest == rest;
    } else {
      assert (open + rest)[1..] == rest && (open + rest)[0] == '[';
    }
  }

  lemma ClosedInner(inner: string, close: string)
    requires close == "]" || (close == "" && NotLast(inner))
    ensures (if HasSuffix(inner + close, "]") then (inner + close)[..|inner + close| - 1] else inner + close) == inner
  {
    FirstLast(inner + close);
    assert close == "" ==> inner + close == inner;
  }

  lemma CloserOf(rest: string) returns (inner: string, close: string)
    requires rest == "" || !IsSpace(rest[|rest| - 1])
    ensures rest == inner + close && (close == "]" || (close == "" && NotLast(inner)))
  {
    FirstLast(rest);
    if HasSuffix(rest, "]") {
      inner, close := rest[..|rest| - 1], "]";
    } else {
      inner, close := rest, "";
    }
  }

  lemma OpenerOf(core: string) returns (open: string, rest: string)
    requires Trimmed(core)
    ensures core == open + rest && (open == "[" || (open == "" && NotFirst(rest)))
    ensures rest == "" || !IsSpace(rest[|rest| - 1])
  {
    FirstLast(core);
    if "[" <= core {
      open, rest := "[", core[1..];
      assert rest == "" || rest[|rest| - 1] == core[|core| - 1];
    } else {
      open, rest := "", core;
    }
  }

  /** Every text is white space around an optionally bracketed part. */
  lemma PartsOf(s: string) returns (lead: string, open: string, inner: string, close: string, trail: string)
    ensures AllSpace(lead) && AllSpace(trail) && Bracketed(open, inner, close)
    ensures s == lead + (open + inner + close) + trail
  {
    lead, trail := TrimSplits(s);
    var rest;
    open, rest := OpenerOf(Trim(s));
    inner, close := CloserOf(rest);
    assert open + (inner + close) == open + inner + close;
  }

  /** What stands between the brackets is tokenised, with blanks for its commas, and unquoted. */
  lemma ReadLoosely(lead: string, open: string, inner: string, close: string, trail: string)
    requires AllSpace(lead) && AllSpace(trail) && Bracketed(open, inner, close)
    ensures StringsOf(lead + (open + inner + close) + trail) ==
            match Tokenized(BlankCommas(inner))
            case Tokens(ts) => Unquoted(ts)
            case Unterminated(_) => []
  {
    BracketedTrimmed(open, inner, close);
    TrimPadded(lead, open + inner + close, trail);
    BracketedInner(open, inner, close);
  }

  lemma BracketsOff(inner: string)
    ensures Unbracketed(Trim("[" + inner + "]")) == inner
  {
  }

  /** What is read for an item: its commas are blanks by then, and its escapes are decoded although none were written. */
  function ReadAs(v: string): string {
    Unescape(BlankCommas(v))
  }

  /**
   A printed array comes apart into its items exactly when each of them is whole, with
   blanks for commas; then every item, empty ones included, is read in its place.
   */
  lemma ArrayReadBack(vs: seq<string>)
    ensures Tokenized(BlankCommas(Unbracketed(Trim(ArrayText(vs))))) == Tokens(Items(Blanked(vs))) <==>
            forall i :: 0 <= i < |vs| ==> Whole(BlankCommas(vs[i]))
    ensures (forall i :: 0 <= i < |vs| ==> Whole(BlankCommas(vs[i]))) ==>
              && |StringsOf(ArrayText(vs))| == |vs|
              && forall i :: 0 <= i < |vs| ==> StringsOf(ArrayText(vs))[i] == ReadAs(vs[i])
  {
    TokeniserSees(vs);
    RowIsItems(Blanked(vs));
    assert (forall i :: 0 <= i < |vs| ==> Whole(BlankCommas(vs[i]))) <==>
           (forall i :: 0 <= i < |Blanked(vs)| ==> Whole(Blanked(vs)[i]));
    forall i | 0 <= i < |vs|
      ensures UnquoteValue(Items(Blanked(vs))[i]) == ReadAs(vs[i])
    {
      ItemUnquoted(BlankCommas(vs[i]));
    }
  }

  lemma ItemUnquoted(w: string)
    ensures UnquoteValue(Item(w)) == Unescape(w)
  {
    assert Item(w)[1..|Item(w)| - 1] == w;
  }

  // Texts that decoding leaves alone.

  /** No backslash stands before a character that it would escape. */
  predicate NoEscapes(s: string) {
    forall k :: 0 <= k < |s| - 1 && s[k] == '\\' ==> s[k + 1] !in "\\\"nrt"
  }

  lemma {:induction false} UnescapeFixed(s: string)
    ensures |Unescape(s)| <= |s|
    ensures Unescape(s) == s <==> NoEscapes(s)
    decreases |s|
  {
    if s == "" {
    } else if s[0] == '\\' && |s| > 1 {
      UnescapeFixed(s[2..]);
      EscapeFirst(s);
    } else {
      UnescapeFixed(s[1..]);
      assert s == [s[0]] + s[1..];
      PlainFirst(s);
    }
  }

  lemma EscapeFirst(s: string)
    requires |s| > 1 && s[0] == '\\'
    ensures |Unescaped(s[1])| == if s[1] in "\\\"nrt" then 1 else 2
    ensures s[1] !in "\\\"nrt" ==> s == Unescaped(s[1]) + s[2..]
    ensures NoEscapes(s) <==> s[1] !in "\\\"nrt" && NoEscapes(s[2..])
  {
    if s[1] !in "\\\"nrt" && NoEscapes(s[2..]) {
      assert forall k :: 2 <= k < |s| ==> s[k] == s[2..][k - 2];
    }
  }

  lemma PlainFirst(s: string)
    requires s != "" && (s[0] != '\\' || |s| == 1)
    ensures NoEscapes(s) <==> NoEscapes(s[1..])
  {
    if NoEscapes(s[1..]) {
      assert forall k :: 1 <= k < |s| ==> s[k] == s[1..][k - 1];
    }
  }

  /**
   Decoding never gives a shorter beginning of its own text unless a backslash comes
   right after it. Stated for a text whose first `n` characters, all backslashes, stay out.
   */
  lemma {:induction false} UnescapeIsPrefix(s: string, n: nat, m: nat)
    requires n <= |s| && m < |s| && Unescape(s[n..]) == s[..m]
    requires forall i :: 0 <= i < n ==> s[i] == '\\'
    ensures s[m] == '\\'
    decreases |s| - n
  {
    var d := s[n..];
    if m >= n {
      assert d != "";
      if d[0] == '\\' && |d| > 1 {
        PrefixAtEscape(s, n, m);
      } else if n == 0 {
        UnescapePeel(s, 1, 1, m);
        UnescapeIsPrefix(s[1..], 0, m - 1);
      } else {
        assert s[..m][0] == s[0];
        assert Unescape(d)[0] == d[0];
      }
    }
  }

  /** Both sides lose their first `k` characters, which are the same. */
  lemma UnescapePeel(s: string, n: nat, k: nat, m: nat)
    requires k <= m < |s| && k <= n <= |s|
    requires s[..k] + Unescape(s[n..]) == s[..m]
    ensures Unescape(s[k..][n - k..]) == s[k..][..m - k] && s[k..][m - k] == s[m]
  {
    assert s[k..][n - k..] == s[n..];
    assert (s[..k] + Unescape(s[n..]))[k..] == s[..m][k..];
    assert s[..m][k..] == s[k..][..m - k];
  }

  lemma {:induction false} PrefixAtEscape(s: string, n: nat, m: nat)
    requires n + 1 < |s| && m < |s| && s[n] == '\\' && Unescape(s[n..]) == s[..m]
    requires forall i :: 0 <= i < n ==> s[i] == '\\'
    ensures s[m] == '\\'
    decreases |s| - n, 1
  {
    EscapeDecoded(s, n);
    UnescapedBackslash(s[n + 1]);
    var e := Unescaped(s[n + 1]);
    SameStart(s[..m], e, Unescape(s[n + 2..]));
    assert s[0] == '\\';
    if s[n + 1] == '\\' {
      PrefixAtDoubled(s, n, m);
    } else {
      assert s[..m][1] == s[n + 1];
      assert n == 0;
      PrefixAtKept(s, m);
    }
  }

  /** Two backslashes stand for one: one more of them stays out. */
  lemma {:induction false} PrefixAtDoubled(s: string, n: nat, m: nat)
    requires n + 1 < |s| && m < |s| && "\\" + Unescape(s[n + 2..]) == s[..m]
    requires forall i :: 0 <= i <= n + 1 ==> s[i] == '\\'
    ensures s[m] == '\\'
    decreases |s| - n, 0
  {
    assert "\\" == s[..1];
    UnescapePeel(s, n + 2, 1, m);
    UnescapeIsPrefix(s[1..], n + 1, m - 1);
  }

  /** A backslash before any other character is kept with it. */
  lemma {:induction false} PrefixAtKept(s: string, m: nat)
    requires 2 <= |s| && m < |s| && [s[0], s[1]] + Unescape(s[2..]) == s[..m]
    ensures s[m] == '\\'
    decreases |s|, 0
  {
    assert [s[0], s[1]] == s[..2];
    UnescapePeel(s, 2, 2, m);
    UnescapeIsPrefix(s[2..], 0, m - 2);
  }

  lemma SameStart(s: string, a: string, b: string)
    requires s == a + b
    ensures a <= s && forall i :: 0 <= i < |a| ==> s[i] == a[i]
  {
  }

  lemma UnescapedBackslash(c: char)
    ensures Unescaped(c) != ""
    ensures Unescaped(c)[0] == '\\' ==> Unescaped(c) == if c == '\\' then "\\" else ['\\', c]
  {
  }

  lemma EscapeDecoded(s: string, n: nat)
    requires n + 1 < |s| && s[n] == '\\'
    ensures Unescape(s[n..]) == Unescaped(s[n + 1]) + Unescape(s[n + 2..])
  {
    assert s[n..][2..] == s[n + 2..];
  }

  // Which arrays survive.

  /** An item that is printed and read back unchanged. */
  predicate Clean(v: string) {
    ',' !in v && Whole(v) && NoEscapes(v)
  }

  lemma CleanRead(v: string)
    requires Clean(v)
    ensures BlankCommas(v) == v && ReadAs(v) == v
  {
    UnescapeFixed(v);
  }

  lemma {:induction false} NoCommaDecoded(s: string)
    requires ',' !in s
    ensures ',' !in Unescape(s)
    decreases |s|
  {
    if s != "" {
      if s[0] == '\\' && |s| > 1 {
        NoCommaDecoded(s[2..]);
      } else {
        NoCommaDecoded(s[1..]);
      }
    }
  }

  /** A first token that opens with quotes and closes its groups is in quotes. */
  lemma QuotedToken(t: string, text: string, v: string)
    requires t != "" && t <= text && Run(LOOSE, Bare, t) == Bare
    requires "\"" + v <= text && t[0] == '"' && UnquoteValue(t) == v
    ensures Surrounded(t, '"')
  {
    assert Run(LOOSE, Bare, "\"") == Run(LOOSE, Double, "");
    assert t != "\"";
    if !Surrounded(t, '"') {
      QuotesAll(t, text, |t| - 1);
    }
  }

  lemma {:induction false} QuotesAll(t: string, text: string, k: nat)
    requires k < |t| && t <= text && "\"" + t <= text
    ensures t[k] == '"'
  {
    assert ("\"" + t)[k] == text[k] == t[k];
    if k > 0 {
      QuotesAll(t, text, k - 1);
    }
  }

  /** When the first token is read as the first item, it is that item as printed. */
  lemma TokenIsItem(t: string, text: string, v: string)
    requires t != "" && t <= text && Run(LOOSE, Bare, t) == Bare
    requires Item(v) <= text && UnquoteValue(t) == v
    ensures t == Item(v) && Unescape(v) == v
  {
    assert text[0] == '"';
    assert "\"" + v <= text;
    QuotedToken(t, text, v);
    var a := t[1..|t| - 1];
    UnescapeFixed(a);
    assert forall k :: 0 <= k < |v| ==> v[k] == text[k + 1];
    assert forall k :: 0 <= k < |a| ==> a[k] == text[k + 1];
    assert v == a[..|v|];
    if |v| < |a| {
      assert a[|v|] == text[|v| + 1] == Item(v)[|v| + 1];
      UnescapeIsPrefix(a, 0, |v|);
    }
    assert a == v;
    assert t == Item(v);
  }

  lemma NoCommaIn(vs: seq<string>)
    ensures ',' !in Row(Blanked(vs))
  {
    BlankCommasJoin(vs);
  }

  /** A first item that is read back unchanged is clean. */
  lemma FirstIsClean(vs: seq<string>)
    requires vs != [] && Tokenized(Row(Blanked(vs))).Tokens?
    requires Unquoted(Tokenized(Row(Blanked(vs))).tokens) == vs
    ensures Clean(vs[0])
  {
    var v, text := vs[0], Row(Blanked(vs));
    RowBegins(Blanked(vs));
    FirstToken(text);
    NoCommaIn(vs);
    var t := Tokenized(text).tokens[0];
    assert UnquoteValue(t) == v;
    UnquotedNoComma(t);
    assert BlankCommas(v) == v;
    TokenIsItem(t, text, v);
    UnescapeFixed(v);
  }

  lemma UnquotedNoComma(t: string)
    requires ',' !in t
    ensures ',' !in UnquoteValue(t)
  {
    if Surrounded(t, '"') {
      NoCommaDecoded(t[1..|t| - 1]);
    }
  }

  lemma {:induction false} ReadBackIsClean(vs: seq<string>)
    requires Tokenized(Row(Blanked(vs))).Tokens?
    requires Unquoted(Tokenized(Row(Blanked(vs))).tokens) == vs
    ensures forall i :: 0 <= i < |vs| ==> Clean(vs[i])
    decreases |vs|
  {
    if vs != [] {
      FirstIsClean(vs);
      CleanRead(vs[0]);
      WholeFirst(Blanked(vs));
      assert Blanked(vs)[1..] == Blanked(vs[1..]);
      if |vs| > 1 {
        var ts, rest := Tokenized(Row(Blanked(vs))).tokens, Tokenized(Row(Blanked(vs[1..])));
        assert ts == [Item(vs[0])] + rest.tokens;
        UnquotedRest(ts, vs);
        ReadBackIsClean(vs[1..]);
        assert forall i :: 0 < i < |vs| ==> vs[i] == vs[1..][i - 1];
      }
    }
  }

  lemma UnquotedRest(ts: seq<string>, vs: seq<string>)
    requires vs != [] && Unquoted(ts) == vs
    ensures Unquoted(ts[1..]) == vs[1..]
  {
  }

  /**
   An array survives printing and reading exactly when each of its items holds no comma
   and nothing to decode, closes its own quotes, and has no blank outside them.
   */
  lemma ArrayRoundTrip(vs: seq<string>)
    ensures StringsOf(ArrayText(vs)) == vs <==> forall i :: 0 <= i < |vs| ==> Clean(vs[i])
  {
    TokeniserSees(vs);
    if forall i :: 0 <= i < |vs| ==> Clean(vs[i]) {
      forall i | 0 <= i < |vs|
        ensures Whole(BlankCommas(vs[i])) && ReadAs(vs[i]) == vs[i]
      {
        CleanRead(vs[i]);
      }
      ArrayReadBack(vs);
    } else if StringsOf(ArrayText(vs)) == vs {
      if Tokenized(Row(Blanked(vs))).Tokens? {
        ReadBackIsClean(vs);
      }
    }
  }

  lemma {:induction false} RunInQuotes(v: string)
    requires '"' !in v && '\\' !in v
    ensures Run(LOOSE, Double, v) == Double && Uncut(LOOSE, Double, v)
    decreases v
  {
    if v != "" {
      RunInQuotes(v[1..]);
    }
  }

  lemma PlainIsWhole(v: string)
    requires '"' !in v && '\\' !in v
    ensures Whole(v)
  {
    var q := "\"";
    assert q[1..] == "";
    RunInQuotes(v);
    assert Run(LOOSE, Bare, q) == Run(LOOSE, Step(Bare, '"'), "");
    assert Run(LOOSE, Double, q) == Run(LOOSE, Step(Double, '"'), "");
    assert Uncut(LOOSE, Bare, q) && Uncut(LOOSE, Double, q);
    RunConcat(LOOSE, Bare, q, v);
    UncutConcat(LOOSE, Bare, q, v);
    RunConcat(LOOSE, Bare, q + v, q);
    UncutConcat(LOOSE, Bare, q + v, q);
  }

  /** Of the arrays without quotes and backslashes, those without commas survive. */
  lemma PlainArrayRoundTrip(vs: seq<string>)
    requires forall i :: 0 <= i < |vs| ==> '"' !in vs[i] && '\\' !in vs[i]
    ensures StringsOf(ArrayText(vs)) == vs <==> forall i :: 0 <= i < |vs| ==> ',' !in vs[i]
  {
    ArrayRoundTrip(vs);
    forall i | 0 <= i < |vs|
      ensures Clean(vs[i]) <==> ',' !in vs[i]
    {
      PlainIsWhole(vs[i]);
    }
  }

  /** A comma, a quote and an escape that do not survive. */
  lemma ItemsLost()
    ensures StringsOf(ArrayText(["a,b"])) != ["a,b"]
    ensures StringsOf(ArrayText(["\""])) != ["\""]
    ensures StringsOf(ArrayText(["\\n"])) != ["\\n"]
  {
    ArrayRoundTrip(["a,b"]);
    ArrayRoundTrip(["\""]);
    ArrayRoundTrip(["\\n"]);
    assert "a,b"[1] == ',' && !Clean(["a,b"][0]);
    QuoteNotWhole();
    assert !Clean(["\""][0]);
    assert "\\n"[0] == '\\' && "\\n"[1] in "\\\"nrt" && !Clean(["\\n"][0]);
  }

  lemma QuoteNotWhole()
    ensures !Whole("\"")
  {
    var s := Item("\"");
    assert s == "\"\"\"" && s[1..] == "\"\"" && s[1..][1..] == "\"" && s[1..][1..][1..] == "";
    assert Run(LOOSE, Bare, s) == Run(LOOSE, Double, s[1..]) == Run(LOOSE, Bare, s[1..][1..]) == Run(LOOSE, Double, "");
  }
}
