/** What splitting into stages keeps, undoes and never does twice. */
module PipeLaws {
  import opened Text
  import opened Scanner
  import opened PipeSplit

  lemma {:induction false} SpacesStayAtStart(s: string)
    requires AllSpace(s)
    ensures Run(STAGES, START, s) == START && Uncut(STAGES, START, s)
  {
    if s != "" {
      assert Step(START, s[0]) == START;
      SpacesStayAtStart(s[1..]);
    }
  }

  lemma {:induction false} OnlyBarsCut(q: Scan, s: string)
    ensures forall i :: 0 <= i < |Cuts(STAGES, q, s)| ==> Cuts(STAGES, q, s)[i] == '|'
    decreases s
  {
    if s != "" {
      OnlyBarsCut(Step(q, s[0]), s[1..]);
    }
  }

  /** Joining the untrimmed stages with bars gives back the message. */
  lemma SplitConserves(raw: string)
    ensures Join(Pieces(STAGES, START, raw), "|") == raw
  {
    PiecesWeave(STAGES, START, raw);
    OnlyBarsCut(START, raw);
    WeaveIsJoin(Pieces(STAGES, START, raw), Cuts(STAGES, START, raw), '|');
  }

  /**
   Before trimming, the stages are the only way to read the message: texts joined by
   bars are its pieces exactly when none holds a top-level bar and all but the last
   close their quotes, brackets and blocks.
   */
  lemma PiecesOfJoin(ps: seq<string>)
    requires ps != []
    ensures Pieces(STAGES, START, Join(ps, "|")) == ps <==>
            (forall i :: 0 <= i < |ps| ==> Uncut(STAGES, START, ps[i])) &&
            (forall i :: 0 <= i < |ps| - 1 ==> Open(Run(STAGES, START, ps[i])))
  {
    StagesReset();
    var raw, bars := Join(ps, "|"), seq(|ps| - 1, i => '|');
    WeaveIsJoin(ps, bars, '|');
    if Pieces(STAGES, START, raw) == ps {
      PiecesUncut(STAGES, START, START, raw);
      PiecesEndAtCuts(STAGES, START, raw);
    } else if (forall i :: 0 <= i < |ps| ==> Uncut(STAGES, START, ps[i])) &&
              (forall i :: 0 <= i < |ps| - 1 ==> Open(Run(STAGES, START, ps[i]))) {
      PiecesUnique(STAGES, START, ps, bars);
    }
  }

  /** A piece loses its end white space only, so what trimming leaves is still uncut. */
  lemma TrimmedPieceUncut(p: string)
    requires Uncut(STAGES, START, p)
    ensures Uncut(STAGES, START, Trim(p))
  {
    var lead, trail := TrimSplits(p);
    SpacesStayAtStart(lead);
    UncutConcat(STAGES, START, lead + Trim(p), trail);
    UncutConcat(STAGES, START, lead, Trim(p));
  }

  lemma StagesAreTrimmedAndUncut(raw: string, i: nat)
    requires i < |Split(raw)|
    ensures Trimmed(Split(raw)[i]) && Uncut(STAGES, START, Split(raw)[i])
  {
    StagesReset();
    PiecesUncut(STAGES, START, START, raw);
    var ps := Pieces(STAGES, START, raw);
    assert DropEmptyLast(ps)[i] == ps[i];
    TrimmedPieceUncut(ps[i]);
    var _, _ := TrimSplits(ps[i]);
  }

  lemma SplitUncut(s: string)
    requires Trimmed(s) && Uncut(STAGES, START, s)
    ensures Split(s) == if s == "" then [] else [s]
  {
    UncutIsOnePiece(STAGES, START, s);
    TrimFixed(s);
  }

  /** A stage is never itself a pipe: splitting a second time does nothing. */
  lemma SplitIdempotent(raw: string, i: nat)
    requires i < |Split(raw)|
    ensures var p := Split(raw)[i];
            !IsPipe(p) && Split(p) == if p == "" then [] else [p]
  {
    StagesAreTrimmedAndUncut(raw, i);
    SplitUncut(Split(raw)[i]);
  }

  /** The test for a bar in IsPipe is only a short cut. */
  lemma IsPipeIsSeveralStages(raw: string)
    ensures IsPipe(raw) <==> |Split(raw)| > 1
  {
    BarInPipe(raw);
  }

  /** Stages that can be joined and found again. */
  ghost predicate Separable(segs: seq<string>) {
    && (forall i :: 0 <= i < |segs| ==> Trimmed(segs[i]) && Uncut(STAGES, START, segs[i]))
    && (forall i :: 0 <= i < |segs| - 1 ==> Open(Run(STAGES, START, segs[i])))
  }

  lemma RunAfterSpaces(lead: string, s: string)
    requires AllSpace(lead)
    ensures Run(STAGES, START, lead + s) == Run(STAGES, START, s)
    ensures Uncut(STAGES, START, lead + s) <==> Uncut(STAGES, START, s)
  {
    SpacesStayAtStart(lead);
    RunConcat(STAGES, START, lead, s);
    UncutConcat(STAGES, START, lead, s);
  }

  /** A space neither cuts nor changes whether a bar would. */
  lemma SpaceAfter(s: string)
    requires Uncut(STAGES, START, s)
    ensures Uncut(STAGES, START, s + " ")
    ensures Open(Run(STAGES, START, s + " ")) <==> Open(Run(STAGES, START, s))
  {
    var q := Run(STAGES, START, s);
    RunConcat(STAGES, START, s, " ");
    UncutConcat(STAGES, START, s, " ");
    assert Run(STAGES, q, " ") == Run(STAGES, Step(q, ' '), "");
    RunInQuotes(s);
  }

  /** An escape is only pending inside double quotes. */
  lemma {:induction false} RunInQuotes(s: string)
    ensures var q := Run(STAGES, START, s); q.tail.Esc? ==> q.double
    decreases |s|
  {
    if s != "" {
      var n := |s| - 1;
      assert s == s[..n] + [s[n]];
      PiecesSnoc(STAGES, START, s[..n], s[n]);
    }
  }

  lemma JoinFirst(lead: string, segs: seq<string>)
    requires |segs| > 1
    ensures lead + Join(segs, " | ") == (lead + segs[0] + " ") + "|" + (" " + Join(segs[1..], " | "))
  {
    BarBetween(lead + segs[0], Join(segs[1..], " | "));
    Reassociate(lead, segs[0] + " | ", Join(segs[1..], " | "));
    Reassociate(lead, segs[0], " | ");
  }

  lemma BarBetween(s: string, rest: string)
    ensures s + " | " + rest == s + " " + "|" + (" " + rest)
  {
    assert " | " == " " + ("|" + " ");
    Reassociate(s, " ", "|" + " ");
    Reassociate(s + " ", "|", " ");
    Reassociate(s + " " + "|", " ", rest);
  }

  lemma KeptFirst(p: string, ps: seq<string>)
    requires |ps| > 0
    ensures TrimAll(DropEmptyLast([p] + ps)) == [Trim(p)] + TrimAll(DropEmptyLast(ps))
  {
    assert DropEmptyLast([p] + ps) == [p] + DropEmptyLast(ps);
    TrimFirst(p, DropEmptyLast(ps));
  }

  lemma TrimFirst(p: string, ps: seq<string>)
    ensures TrimAll([p] + ps) == [Trim(p)] + TrimAll(ps)
  {
  }

  /** When the first stage is separable from the rest, it is split off as it stands. */
  lemma SplitOffFirst(lead: string, s: string, rest: string)
    requires AllSpace(lead) && Trimmed(s) && Uncut(STAGES, START, s)
    requires Open(Run(STAGES, START, s))
    ensures Split((lead + s + " ") + "|" + rest) == [s] + Split(rest)
  {
    var p := lead + s + " ";
    StagesReset();
    SpaceAfter(s);
    RunAfterSpaces(lead, s + " ");
    assert p == lead + (s + " ");
    PiecesFirst(STAGES, START, START, p, '|', rest);
    TrimPadded(lead, s, " ");
    KeptFirst(p, Pieces(STAGES, START, rest));
  }

  lemma {:induction false} JoinThenSplit(lead: string, segs: seq<string>)
    requires |segs| > 0 && AllSpace(lead) && Separable(segs)
    requires |segs| > 1 || lead + segs[0] != ""
    ensures Split(lead + Join(segs, " | ")) == segs
    decreases |segs|
  {
    var raw := lead + Join(segs, " | ");
    if |segs| == 1 {
      RunAfterSpaces(lead, segs[0]);
      UncutIsOnePiece(STAGES, START, raw);
      TrimPadded(lead, segs[0], "");
      assert lead + segs[0] + "" == raw;
    } else {
      JoinFirst(lead, segs);
      var rest := " " + Join(segs[1..], " | ");
      SplitOffFirst(lead, segs[0], rest);
      JoinThenSplit(" ", segs[1..]);
    }
  }

  /** A stage that leaves a quote or bracket open swallows the bar after it. */
  lemma BarSwallowed(lead: string, s: string, rest: string)
    requires AllSpace(lead) && Trimmed(s) && Uncut(STAGES, START, s)
    requires !Open(Run(STAGES, START, s))
    ensures Trim(Pieces(STAGES, START, (lead + s + " ") + "|" + rest)[0]) != s
  {
    SpaceAfter(s);
    RunAfterSpaces(lead, s + " ");
    assert lead + s + " " == lead + (s + " ");
    var a := lead + s + " ";
    PiecesConcat(STAGES, START, a + "|", rest);
    PiecesSnoc(STAGES, START, a, '|');
    UncutIsOnePiece(STAGES, START, a);
    var p := Pieces(STAGES, START, a + "|" + rest)[0];
    assert a + "|" <= p;
    var l, t := TrimSplits(p);
    BarSurvivesTrim(lead, s, p, l, Trim(p), t);
  }

  lemma SolidInside(l: string, mid: string, t: string, k: nat)
    requires AllSpace(l) && AllSpace(t)
    requires k < |l + mid + t| && !IsSpace((l + mid + t)[k])
    ensures |l| <= k < |l| + |mid|
  {
  }

  /** The bar after a stage cannot be among the white space trimmed off its piece. */
  lemma BarSurvivesTrim(lead: string, s: string, p: string, l: string, mid: string, t: string)
    requires AllSpace(lead) && AllSpace(l) && AllSpace(t) && Trimmed(s)
    requires lead + s + " " + "|" <= p && p == l + mid + t
    ensures |mid| > |s|
  {
    var k := |lead + s + " "|;
    assert (lead + s + " " + "|")[k] == '|';
    assert p[k] == '|';
    SolidInside(l, mid, t, k);
    if s != "" {
      assert (lead + s + " " + "|")[|lead|] == s[0];
      assert p[|lead|] == s[0];
      SolidInside(l, mid, t, |lead|);
    }
  }

  lemma {:induction false} SplitThenSeparable(lead: string, segs: seq<string>)
    requires |segs| > 0 && AllSpace(lead)
    requires Split(lead + Join(segs, " | ")) == segs
    ensures Separable(segs)
    decreases |segs|
  {
    var raw := lead + Join(segs, " | ");
    StagesAreTrimmedAndUncut(raw, 0);
    if |segs| > 1 {
      var rest := " " + Join(segs[1..], " | ");
      JoinFirst(lead, segs);
      FirstIsOpen(lead, segs[0], rest);
      SplitOffFirst(lead, segs[0], rest);
      assert segs == [segs[0]] + segs[1..];
      SplitThenSeparable(" ", segs[1..]);
      SeparableFirst(segs);
    }
  }

  lemma FirstIsOpen(lead: string, s: string, rest: string)
    requires AllSpace(lead) && Trimmed(s) && Uncut(STAGES, START, s)
    requires var raw := (lead + s + " ") + "|" + rest; |Split(raw)| > 0 && Split(raw)[0] == s
    ensures Open(Run(STAGES, START, s))
  {
    if !Open(Run(STAGES, START, s)) {
      BarSwallowed(lead, s, rest);
    }
  }

  lemma SeparableFirst(segs: seq<string>)
    requires |segs| > 1 && Separable(segs[1..])
    requires Separable([segs[0]]) && Open(Run(STAGES, START, segs[0]))
    ensures Separable(segs)
  {
    assert [segs[0]][0] == segs[0];
    forall i | 0 <= i < |segs|
      ensures Trimmed(segs[i]) && Uncut(STAGES, START, segs[i])
      ensures i < |segs| - 1 ==> Open(Run(STAGES, START, segs[i]))
    {
      if i > 0 { assert segs[1..][i - 1] == segs[i]; }
    }
  }

  /**
   Splitting undoes joining with " | " exactly for stages that are trimmed, hold no
   top-level bar and, but for the last, close their quotes, brackets and blocks.
   The one exception is the list holding just the empty stage.
   */
  lemma SplitUndoesJoin(segs: seq<string>)
    ensures Split(Join(segs, " | ")) == segs <==> Separable(segs) && segs != [""]
  {
    assert "" + Join(segs, " | ") == Join(segs, " | ");
    if segs == [] {
    } else if Separable(segs) && segs != [""] {
      JoinThenSplit("", segs);
    } else if Split(Join(segs, " | ")) == segs {
      SplitThenSeparable("", segs);
    }
  }
}
