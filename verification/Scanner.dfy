/**
 Scanners that cut a text at separators which only count in some states.

 A machine reads one character at a time. `cut` says that a character read in a
 state is a separator; the pieces of a text are what lies between its separators.
 Every scanner of the hub that looks one character ahead is a machine of this
 kind once the decision is put off to the second character.
 */
module Scanner {
  import opened Text

  datatype Machine<!Q> = Machine(step: (Q, char) -> Q, cut: (Q, char) -> bool)

  function Run<Q>(m: Machine<Q>, q: Q, s: string): Q {
    if s == "" then q else Run(m, m.step(q, s[0]), s[1..])
  }

  function Pieces<Q>(m: Machine<Q>, q: Q, s: string): (ps: seq<string>)
    ensures |ps| > 0
  {
    if s == "" then [""]
    else
      var rest := Pieces(m, m.step(q, s[0]), s[1..]);
      if m.cut(q, s[0]) then [""] + rest else [[s[0]] + rest[0]] + rest[1..]
  }

  /** The separators, in order. */
  function Cuts<Q>(m: Machine<Q>, q: Q, s: string): string {
    if s == "" then ""
    else
      var rest := Cuts(m, m.step(q, s[0]), s[1..]);
      if m.cut(q, s[0]) then [s[0]] + rest else rest
  }

  /** No character of `s` is a separator when reading starts in `q`. */
  predicate Uncut<Q>(m: Machine<Q>, q: Q, s: string) {
    s == "" || (!m.cut(q, s[0]) && Uncut(m, m.step(q, s[0]), s[1..]))
  }

  /** A separator always takes the machine back to `q0`. */
  ghost predicate Resets<Q(!new)>(m: Machine<Q>, q0: Q) {
    forall q: Q, c: char :: m.cut(q, c) ==> m.step(q, c) == q0
  }

  /** Pieces with the separators put back between them. */
  function Weave(ps: seq<string>, cs: string): string
    requires |ps| == |cs| + 1
  {
    if cs == "" then ps[0] else ps[0] + [cs[0]] + Weave(ps[1..], cs[1..])
  }

  /** The last of `a` and the first of `b` become one piece. */
  function Glue(a: seq<string>, b: seq<string>): seq<string>
    requires |a| > 0 && |b| > 0
  {
    a[..|a| - 1] + [a[|a| - 1] + b[0]] + b[1..]
  }

  lemma {:induction false} RunConcat<Q>(m: Machine<Q>, q: Q, a: string, b: string)
    ensures Run(m, q, a + b) == Run(m, Run(m, q, a), b)
  {
    if a == "" {
      assert a + b == b;
    } else {
      assert (a + b)[1..] == a[1..] + b;
      RunConcat(m, m.step(q, a[0]), a[1..], b);
    }
  }

  lemma GlueBehind(h: string, x: seq<string>, y: seq<string>)
    requires |x| > 0 && |y| > 0
    ensures Glue([h] + x, y) == [h] + Glue(x, y)
  {
  }

  lemma GlueFront(h: string, x: seq<string>, y: seq<string>)
    requires |x| > 0 && |y| > 0
    ensures Glue([h + x[0]] + x[1..], y) == [h + Glue(x, y)[0]] + Glue(x, y)[1..]
  {
    if |x| == 1 {
      assert h + x[0] + y[0] == h + (x[0] + y[0]);
      assert [h + x[0]] + x[1..] == [h + x[0]];
    } else {
      assert Glue(x, y)[1..] == Glue(x[1..], y);
      GlueBehind(h + x[0], x[1..], y);
    }
  }

  lemma {:induction false} PiecesConcat<Q>(m: Machine<Q>, q: Q, a: string, b: string)
    ensures Pieces(m, q, a + b) == Glue(Pieces(m, q, a), Pieces(m, Run(m, q, a), b))
  {
    if a == "" {
      assert a + b == b;
      var ps := Pieces(m, q, b);
      assert "" + ps[0] == ps[0];
    } else {
      assert (a + b)[1..] == a[1..] + b;
      PiecesConcat(m, m.step(q, a[0]), a[1..], b);
      var x := Pieces(m, m.step(q, a[0]), a[1..]);
      var y := Pieces(m, Run(m, q, a), b);
      if m.cut(q, a[0]) {
        GlueBehind("", x, y);
      } else {
        GlueFront([a[0]], x, y);
      }
    }
  }

  /** How the pieces grow by one character; this is one turn of a scanning loop. */
  lemma PiecesSnoc<Q>(m: Machine<Q>, q: Q, s: string, c: char)
    ensures Run(m, q, s + [c]) == m.step(Run(m, q, s), c)
    ensures var ps := Pieces(m, q, s);
            Pieces(m, q, s + [c]) ==
            if m.cut(Run(m, q, s), c) then ps + [""] else ps[..|ps| - 1] + [ps[|ps| - 1] + [c]]
  {
    RunConcat(m, q, s, [c]);
    PiecesConcat(m, q, s, [c]);
    var r := Run(m, q, s);
    var ps := Pieces(m, q, s);
    assert [c][1..] == "";
    assert Run(m, r, [c]) == Run(m, m.step(r, c), "");
    assert Pieces(m, m.step(r, c), "") == [""];
    if m.cut(r, c) {
      assert Pieces(m, r, [c]) == ["", ""];
      assert ps[|ps| - 1] + "" == ps[|ps| - 1];
    } else {
      assert [c] + "" == [c];
      assert Pieces(m, r, [c]) == [[c]];
    }
  }

  lemma {:induction false} UncutIsOnePiece<Q>(m: Machine<Q>, q: Q, s: string)
    ensures Uncut(m, q, s) <==> Pieces(m, q, s) == [s]
    ensures Uncut(m, q, s) <==> |Pieces(m, q, s)| == 1
  {
    if s != "" {
      UncutIsOnePiece(m, m.step(q, s[0]), s[1..]);
      assert s == [s[0]] + s[1..];
    }
  }

  lemma {:induction false} UncutConcat<Q>(m: Machine<Q>, q: Q, a: string, b: string)
    ensures Uncut(m, q, a + b) <==> Uncut(m, q, a) && Uncut(m, Run(m, q, a), b)
  {
    if a == "" {
      assert a + b == b;
    } else {
      assert (a + b)[1..] == a[1..] + b;
      UncutConcat(m, m.step(q, a[0]), a[1..], b);
    }
  }

  /** Nothing is lost: pieces and separators make up the text. */
  lemma {:induction false} PiecesWeave<Q>(m: Machine<Q>, q: Q, s: string)
    ensures |Pieces(m, q, s)| == |Cuts(m, q, s)| + 1
    ensures Weave(Pieces(m, q, s), Cuts(m, q, s)) == s
  {
    if s != "" {
      var q' := m.step(q, s[0]);
      PiecesWeave(m, q', s[1..]);
      var ps, cs := Pieces(m, q', s[1..]), Cuts(m, q', s[1..]);
      assert s == [s[0]] + s[1..];
      if m.cut(q, s[0]) {
        assert ([""] + ps)[1..] == ps && ([s[0]] + cs)[1..] == cs;
      } else if cs != "" {
        assert ([[s[0]] + ps[0]] + ps[1..])[1..] == ps[1..];
      }
    }
  }

  /** Only separators are dropped, and every piece is free of them. */
  lemma {:induction false} PiecesUncut<Q(!new)>(m: Machine<Q>, q0: Q, q: Q, s: string)
    requires Resets(m, q0)
    ensures Uncut(m, q, Pieces(m, q, s)[0])
    ensures forall i :: 0 < i < |Pieces(m, q, s)| ==> Uncut(m, q0, Pieces(m, q, s)[i])
  {
    if s != "" {
      PiecesUncut(m, q0, m.step(q, s[0]), s[1..]);
      var rest := Pieces(m, m.step(q, s[0]), s[1..]);
      var ps := Pieces(m, q, s);
      if m.cut(q, s[0]) {
        assert forall i :: 0 < i < |ps| ==> ps[i] == rest[i - 1];
      } else {
        assert ps[0][1..] == rest[0];
        assert forall i :: 0 < i < |ps| ==> ps[i] == rest[i];
      }
    }
  }

  /** Each piece but the last leaves the machine where the next separator cuts. */
  lemma PiecesEndAtCuts<Q(!new)>(m: Machine<Q>, q0: Q, s: string)
    requires Resets(m, q0)
    ensures |Pieces(m, q0, s)| == |Cuts(m, q0, s)| + 1
    ensures forall i :: 0 <= i < |Cuts(m, q0, s)| ==>
              m.cut(Run(m, q0, Pieces(m, q0, s)[i]), Cuts(m, q0, s)[i])
  {
    PiecesEndAtCutsFrom(m, q0, q0, s);
  }

  /** Each piece but the last, read from `q` if it is the first and from `q0` if not, ends where its separator cuts. */
  ghost predicate EndAtCuts<Q(!new)>(m: Machine<Q>, q0: Q, q: Q, ps: seq<string>, cs: string) {
    && |ps| == |cs| + 1
    && forall i :: 0 <= i < |cs| ==> m.cut(Run(m, if i == 0 then q else q0, ps[i]), cs[i])
  }

  lemma EndsBehindCut<Q(!new)>(m: Machine<Q>, q0: Q, q: Q, ps: seq<string>, cs: string, c: char)
    requires m.cut(q, c) && EndAtCuts(m, q0, q0, ps, cs)
    ensures EndAtCuts(m, q0, q, [""] + ps, [c] + cs)
  {
    assert Run(m, q, "") == q;
    assert forall i :: 0 < i <= |cs| ==> ([""] + ps)[i] == ps[i - 1] && ([c] + cs)[i] == cs[i - 1];
  }

  lemma EndsBehindChar<Q(!new)>(m: Machine<Q>, q0: Q, q: Q, ps: seq<string>, cs: string, c: char)
    requires EndAtCuts(m, q0, m.step(q, c), ps, cs)
    ensures EndAtCuts(m, q0, q, [[c] + ps[0]] + ps[1..], cs)
  {
    assert ([c] + ps[0])[1..] == ps[0];
    assert Run(m, q, [c] + ps[0]) == Run(m, m.step(q, c), ps[0]);
  }

  lemma {:induction false} PiecesEndAtCutsFrom<Q(!new)>(m: Machine<Q>, q0: Q, q: Q, s: string)
    requires Resets(m, q0)
    ensures EndAtCuts(m, q0, q, Pieces(m, q, s), Cuts(m, q, s))
  {
    if s != "" {
      var q' := m.step(q, s[0]);
      PiecesEndAtCutsFrom(m, q0, q', s[1..]);
      var ps, cs := Pieces(m, q', s[1..]), Cuts(m, q', s[1..]);
      if m.cut(q, s[0]) {
        EndsBehindCut(m, q0, q, ps, cs, s[0]);
      } else {
        EndsBehindChar(m, q0, q, ps, cs, s[0]);
      }
    }
  }

  /** A separator at the front leaves an empty piece before it. */
  lemma SeparatorFirst<Q(!new)>(m: Machine<Q>, q0: Q, q: Q, c: char, b: string)
    requires Resets(m, q0) && m.cut(q, c)
    ensures Pieces(m, q, [c] + b) == [""] + Pieces(m, q0, b)
  {
    assert ([c] + b)[1..] == b;
    assert m.step(q, c) == q0;
  }

  lemma GlueOne(a: string, ps: seq<string>)
    ensures Glue([a], [""] + ps) == [a] + ps
  {
    assert a + "" == a;
  }

  /** One separator after an uncut text makes that text the first piece. */
  lemma PiecesFirst<Q(!new)>(m: Machine<Q>, q0: Q, q: Q, a: string, c: char, b: string)
    requires Resets(m, q0)
    requires Uncut(m, q, a) && m.cut(Run(m, q, a), c)
    ensures Pieces(m, q, a + [c] + b) == [a] + Pieces(m, q0, b)
  {
    Reassociate(a, [c], b);
    PiecesConcat(m, q, a, [c] + b);
    UncutIsOnePiece(m, q, a);
    SeparatorFirst(m, q0, Run(m, q, a), c, b);
    GlueOne(a, Pieces(m, q0, b));
  }

  /** What is read without a cut goes in front of the first piece. */
  lemma PiecesBehind<Q>(m: Machine<Q>, q: Q, t: string, rest: string)
    requires Uncut(m, q, t)
    ensures var ps := Pieces(m, Run(m, q, t), rest);
            Pieces(m, q, t + rest) == [t + ps[0]] + ps[1..]
  {
    PiecesConcat(m, q, t, rest);
    UncutIsOnePiece(m, q, t);
  }

  /** The last text is longer by what comes behind it. */
  function WithTail(ss: seq<string>, tail: string): seq<string>
    requires ss != []
  {
    ss[..|ss| - 1] + [ss[|ss| - 1] + tail]
  }

  lemma PiecesBefore<Q>(m: Machine<Q>, q: Q, s: string, tail: string)
    requires Uncut(m, Run(m, q, s), tail)
    ensures Pieces(m, q, s + tail) == WithTail(Pieces(m, q, s), tail)
  {
    UncutIsOnePiece(m, Run(m, q, s), tail);
    PiecesConcat(m, q, s, tail);
  }

  /** The pieces are the only way to read a text as uncut parts between separators. */
  lemma {:induction false} PiecesUnique<Q(!new)>(m: Machine<Q>, q0: Q, ps: seq<string>, cs: string)
    requires Resets(m, q0)
    requires |ps| == |cs| + 1
    requires forall i :: 0 <= i < |ps| ==> Uncut(m, q0, ps[i])
    requires forall i :: 0 <= i < |cs| ==> m.cut(Run(m, q0, ps[i]), cs[i])
    ensures Pieces(m, q0, Weave(ps, cs)) == ps && Cuts(m, q0, Weave(ps, cs)) == cs
  {
    if cs == "" {
      UncutIsOnePiece(m, q0, ps[0]);
      PiecesWeave(m, q0, ps[0]);
    } else {
      PiecesUnique(m, q0, ps[1..], cs[1..]);
      var rest := Weave(ps[1..], cs[1..]);
      PiecesFirst(m, q0, q0, ps[0], cs[0], rest);
      CutsFirst(m, q0, q0, ps[0], cs[0], rest);
    }
  }

  lemma {:induction false} CutsFirst<Q(!new)>(m: Machine<Q>, q0: Q, q: Q, a: string, c: char, b: string)
    requires Resets(m, q0)
    requires Uncut(m, q, a) && m.cut(Run(m, q, a), c)
    ensures Cuts(m, q, a + [c] + b) == [c] + Cuts(m, q0, b)
  {
    var s := a + [c] + b;
    if a == "" {
      assert s[1..] == b;
    } else {
      assert s[1..] == a[1..] + [c] + b;
      CutsFirst(m, q0, m.step(q, a[0]), a[1..], c, b);
    }
  }

  lemma {:induction false} WeaveIsJoin(ps: seq<string>, cs: string, sep: char)
    requires |ps| == |cs| + 1
    requires forall i :: 0 <= i < |cs| ==> cs[i] == sep
    ensures Weave(ps, cs) == Join(ps, [sep])
    decreases |ps|
  {
    if cs != "" {
      WeaveIsJoin(ps[1..], cs[1..], sep);
    }
  }
}
