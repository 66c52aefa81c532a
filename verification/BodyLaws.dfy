/** What the tokens of a body say about it, and when joined tokens are found again. */
module BodyLaws {
  import opened Text
  import opened Scanner
  import opened BodyTokens

  ghost predicate Covers(t: Token, k: int) {
    t.start <= k < t.End()
  }

  ghost predicate Covered(s: string, ts: seq<Token>) {
    forall k :: 0 <= k < |s| && s[k] != ' ' ==> exists i :: 0 <= i < |ts| && Covers(ts[i], k)
  }

  ghost predicate InPlace(s: string, t: Token) {
    t.End() <= |s| && t.text == s[t.start..t.End()] && t.text != ""
  }

  ghost predicate Apart(ts: seq<Token>) {
    forall i, j :: 0 <= i < j < |ts| ==> ts[i].End() < ts[j].start
  }

  /**
   The tokens stand in `s` in order with at least one character between two of
   them, and every character outside them is a space.
   */
  ghost predicate Laid(s: string, ts: seq<Token>) {
    && (forall i :: 0 <= i < |ts| ==> InPlace(s, ts[i]))
    && Apart(ts)
    && Covered(s, ts)
  }

  lemma {:induction false} OnlySpacesCut(q: Nesting, s: string)
    ensures forall i :: 0 <= i < |Cuts(BODY, q, s)| ==> Cuts(BODY, q, s)[i] == ' '
    decreases s
  {
    if s != "" {
      OnlySpacesCut(Step(q, s[0]), s[1..]);
    }
  }

  lemma InPlaceBehind(p: string, s: string, t: Token)
    requires InPlace(s, t)
    ensures InPlace(p + " " + s, Token(t.start + |p| + 1, t.text))
  {
  }

  lemma CoveredBehind(p: string, s: string, ts: seq<Token>, front: seq<Token>, us: seq<Token>)
    requires Covered(s, ts) && |us| == |ts|
    requires forall i :: 0 <= i < |ts| ==> us[i] == Token(ts[i].start + |p| + 1, ts[i].text)
    requires front == if p == "" then [] else [Token(0, p)]
    ensures Covered(p + " " + s, front + us)
  {
    var r := p + " " + s;
    forall k | 0 <= k < |r| && r[k] != ' '
      ensures exists i :: 0 <= i < |front + us| && Covers((front + us)[i], k)
    {
      if k < |p| {
        assert Covers((front + us)[0], k);
      } else {
        assert s[k - |p| - 1] == r[k];
        var i :| 0 <= i < |ts| && Covers(ts[i], k - |p| - 1);
        assert Covers((front + us)[|front| + i], k);
      }
    }
  }

  lemma ApartBehind(p: string, ts: seq<Token>, front: seq<Token>, us: seq<Token>)
    requires Apart(ts) && |us| == |ts|
    requires forall i :: 0 <= i < |ts| ==> us[i] == Token(ts[i].start + |p| + 1, ts[i].text)
    requires front == if p == "" then [] else [Token(0, p)]
    ensures Apart(front + us)
  {
  }

  /** Tokens laid out in a text stay laid out behind a piece and its separator. */
  lemma LaidBehind(p: string, s: string, ts: seq<Token>, us: seq<Token>)
    requires Laid(s, ts) && |us| == |ts|
    requires forall i :: 0 <= i < |ts| ==> us[i] == Token(ts[i].start + |p| + 1, ts[i].text)
    ensures Laid(p + " " + s, (if p == "" then [] else [Token(0, p)]) + us)
  {
    var front := if p == "" then [] else [Token(0, p)];
    var all := front + us;
    forall i | 0 <= i < |all|
      ensures InPlace(p + " " + s, all[i])
    {
      if i < |front| {
        assert (p + " " + s)[0..|p|] == p;
      } else {
        InPlaceBehind(p, s, ts[i - |front|]);
      }
    }
    CoveredBehind(p, s, ts, front, us);
    ApartBehind(p, ts, front, us);
  }

  lemma {:induction false} LocatedShift(ps: seq<string>, at: nat, shift: nat)
    ensures |Located(ps, at + shift)| == |Located(ps, at)|
    ensures forall i :: 0 <= i < |Located(ps, at)| ==>
              Located(ps, at + shift)[i] == Token(Located(ps, at)[i].start + shift, Located(ps, at)[i].text)
    decreases |ps|
  {
    if ps != [] {
      LocatedShift(ps[1..], at + |ps[0]| + 1, shift);
      assert at + shift + |ps[0]| + 1 == at + |ps[0]| + 1 + shift;
    }
  }

  lemma LaidAlone(p: string)
    ensures Laid(p, if p == "" then [] else [Token(0, p)])
  {
    if p != "" {
      var t := Token(0, p);
      assert p[0..|p|] == p;
      assert forall k :: 0 <= k < |p| ==> Covers([t][0], k);
    }
  }

  lemma {:induction false} WeaveLaid(ps: seq<string>, cs: string)
    requires |ps| == |cs| + 1
    requires forall i :: 0 <= i < |cs| ==> cs[i] == ' '
    ensures Laid(Weave(ps, cs), Located(ps, 0))
    decreases |ps|
  {
    if cs == "" {
      LaidAlone(ps[0]);
      assert Located(ps, 0) == if ps[0] == "" then [] else [Token(0, ps[0])];
    } else {
      WeaveLaid(ps[1..], cs[1..]);
      LocatedShift(ps[1..], 0, |ps[0]| + 1);
      assert [cs[0]] == " ";
      LaidBehind(ps[0], Weave(ps[1..], cs[1..]), Located(ps[1..], 0), Located(ps[1..], |ps[0]| + 1));
    }
  }

  /** The tokens and the spaces between them are the whole body. */
  lemma TokensConserve(body: string)
    ensures Laid(body, Tokens(body))
  {
    PiecesWeave(BODY, TOP, body);
    OnlySpacesCut(TOP, body);
    WeaveLaid(Pieces(BODY, TOP, body), Cuts(BODY, TOP, body));
  }

  /** The caret is in the token or right at either end of it. */
  predicate CaretIn(t: Token, cursor: int) {
    t.start <= cursor <= t.start + |t.text|
  }

  /** The caret interval of at most one token holds the cursor, and then that token is reported; the last one if there is none. */
  lemma CursorToken(body: string, cursor: int, i: nat)
    requires i < |Tokens(body)|
    ensures var ts := Tokens(body);
            && (CaretIn(ts[i], cursor) ==>
                  Reported(ts, cursor) == ts[i].text && forall j :: 0 <= j < |ts| && j != i ==> !CaretIn(ts[j], cursor))
            && ((forall j :: 0 <= j < |ts| ==> !CaretIn(ts[j], cursor)) ==> Reported(ts, cursor) == ts[|ts| - 1].text)
  {
    TokensConserve(body);
    OneCaret(Tokens(body), cursor);
    HolderExact(Tokens(body), cursor);
  }

  lemma OneCaret(ts: seq<Token>, cursor: int)
    requires Apart(ts)
    ensures forall i, j :: 0 <= i < |ts| && 0 <= j < |ts| && i != j ==> !(CaretIn(ts[i], cursor) && CaretIn(ts[j], cursor))
  {
  }

  lemma HolderExact(ts: seq<Token>, cursor: int)
    ensures Holder(ts, cursor) < |ts| ==> CaretIn(ts[Holder(ts, cursor)], cursor)
    ensures Holder(ts, cursor) == |ts| ==> forall i :: 0 <= i < |ts| ==> !CaretIn(ts[i], cursor)
  {
    forall i | 0 <= i < |ts| && CaretIn(ts[i], cursor)
      ensures Holder(ts, cursor) <= i
    {
      HolderIsFirst(ts, cursor, i);
    }
  }

  lemma NothingReported(body: string, cursor: int)
    ensures Tokens(body) == [] ==> Reported(Tokens(body), cursor) == ""
  {
  }

  lemma {:induction false} HolderIsFirst(ts: seq<Token>, cursor: int, i: nat)
    requires i < |ts| && ts[i].Holds(cursor)
    ensures Holder(ts, cursor) <= i
    decreases |ts|
  {
    if !ts[0].Holds(cursor) {
      HolderIsFirst(ts[1..], cursor, i - 1);
    }
  }

  lemma {:induction false} LocatedTexts(ps: seq<string>, at: nat, i: nat)
    requires i < |Located(ps, at)|
    ensures Located(ps, at)[i].text in ps && Located(ps, at)[i].text != ""
    decreases |ps|
  {
    var n := if ps[0] == "" then 0 else 1;
    if i >= n {
      LocatedTexts(ps[1..], at + |ps[0]| + 1, i - n);
      assert Located(ps, at)[i] == Located(ps[1..], at + |ps[0]| + 1)[i - n];
      assert Located(ps, at)[i].text in ps[1..];
    }
  }

  /** No token holds a space at which it would have been split. */
  lemma TokensUncut(body: string)
    ensures forall i :: 0 <= i < |Tokens(body)| ==>
              Tokens(body)[i].text != "" && Uncut(BODY, TOP, Tokens(body)[i].text)
  {
    BodyResets();
    PiecesUncut(BODY, TOP, TOP, body);
    forall i | 0 <= i < |Tokens(body)|
      ensures Tokens(body)[i].text != "" && Uncut(BODY, TOP, Tokens(body)[i].text)
    {
      LocatedTexts(Pieces(BODY, TOP, body), 0, i);
    }
  }

  /** Tokens that can be joined by single spaces and found again. */
  ghost predicate SelfContained(ts: seq<string>) {
    && (forall i :: 0 <= i < |ts| ==> ts[i] != "" && Uncut(BODY, TOP, ts[i]))
    && (forall i :: 0 <= i < |ts| - 1 ==> Outside(Run(BODY, TOP, ts[i])))
  }

  lemma {:induction false} JoinThenParse(ts: seq<string>)
    requires SelfContained(ts)
    ensures Texts(Tokens(Join(ts, " "))) == ts
    decreases |ts|
  {
    if |ts| == 0 {
      assert Located([""], 0) == [] + Located([], 1);
    } else if |ts| == 1 {
      UncutIsOnePiece(BODY, TOP, ts[0]);
      assert Located(ts, 0) == [Token(0, ts[0])] + Located([], |ts[0]| + 1);
    } else {
      JoinThenParse(ts[1..]);
      FirstTokenOff(ts[0], Join(ts[1..], " "));
      assert ts == [ts[0]] + ts[1..];
    }
  }

  /** A first token outside of which a space cuts is read off the front. */
  lemma FirstTokenOff(t: string, rest: string)
    requires t != "" && Uncut(BODY, TOP, t) && Outside(Run(BODY, TOP, t))
    ensures Texts(Tokens(t + " " + rest)) == [t] + Texts(Tokens(rest))
  {
    BodyResets();
    PiecesFirst(BODY, TOP, TOP, t, ' ', rest);
    FirstLocated(t, Pieces(BODY, TOP, rest));
  }

  lemma FirstLocated(t: string, ps: seq<string>)
    requires t != ""
    ensures Texts(Located([t] + ps, 0)) == [t] + Texts(Located(ps, 0))
  {
    LocatedShift(ps, 0, |t| + 1);
    assert ([t] + ps)[1..] == ps;
    assert Located([t] + ps, 0) == [Token(0, t)] + Located(ps, |t| + 1);
  }

  /** A first token that stays open swallows the space after it. */
  lemma SpaceSwallowed(t: string, rest: string)
    requires t != "" && Uncut(BODY, TOP, t) && !Outside(Run(BODY, TOP, t))
    ensures var ts := Texts(Tokens(t + " " + rest)); ts != [] && ts[0] != t
  {
    PiecesConcat(BODY, TOP, t + " ", rest);
    PiecesSnoc(BODY, TOP, t, ' ');
    UncutIsOnePiece(BODY, TOP, t);
    var ps := Pieces(BODY, TOP, t + " " + rest);
    assert t + " " <= ps[0];
    assert Located(ps, 0)[0] == Token(0, ps[0]);
  }

  lemma {:induction false} ParseThenSelfContained(ts: seq<string>)
    requires Texts(Tokens(Join(ts, " "))) == ts
    ensures SelfContained(ts)
    decreases |ts|
  {
    if ts != [] {
      var body := Join(ts, " ");
      TokensUncut(body);
      assert forall i :: 0 <= i < |ts| ==> Tokens(body)[i].text == ts[i];
      if |ts| > 1 {
        var rest := Join(ts[1..], " ");
        if !Outside(Run(BODY, TOP, ts[0])) {
          SpaceSwallowed(ts[0], rest);
        }
        FirstTokenOff(ts[0], rest);
        assert ts == [ts[0]] + ts[1..];
        ParseThenSelfContained(ts[1..]);
        assert forall i :: 0 < i < |ts| ==> ts[1..][i - 1] == ts[i];
      }
    }
  }

  /**
   Parsing undoes joining with single spaces exactly for non-empty tokens without a
   top-level space that, but for the last, close their quotes and brackets.
   */
  lemma ParseUndoesJoin(ts: seq<string>)
    ensures Texts(Tokens(Join(ts, " "))) == ts <==> SelfContained(ts)
  {
    if SelfContained(ts) {
      JoinThenParse(ts);
    } else if Texts(Tokens(Join(ts, " "))) == ts {
      ParseThenSelfContained(ts);
    }
  }
}
