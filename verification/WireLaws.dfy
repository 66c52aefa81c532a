/** Exactly which of the hub's replies are read back whole by the far end. */
module WireLaws {
  import opened Text
  import opened Splitting
  import opened Printing
  import opened Framing
  import opened FramingLaws
  import opened Wire
  import opened Arrays
  import opened ArrayLaws
  import opened Scanner
  import PipeSplit

  // Where "<<" can come from.

  predicate Opens(s: string) {
    |s| >= 2 && ((s[0] == '<' && s[1] == '<') || Opens(s[1..]))
  }

  lemma {:induction false} OpensIsContains(s: string)
    ensures Opens(s) <==> Contains(s, "<<")
    decreases |s|
  {
    if |s| >= 2 {
      OpensIsContains(s[1..]);
      ContainsFirst(s);
    }
  }

  lemma ContainsFirst(s: string)
    requires |s| >= 2
    ensures Contains(s, "<<") <==> (s[0] == '<' && s[1] == '<') || Contains(s[1..], "<<")
  {
    if s[0] == '<' && s[1] == '<' {
      assert "<<" <= s[0..];
    }
    if Contains(s[1..], "<<") {
      var i :| 0 <= i <= |s[1..]| && "<<" <= s[1..][i..];
      assert s[1..][i..] == s[i + 1..];
    }
    if Contains(s, "<<") {
      var i :| 0 <= i <= |s| && "<<" <= s[i..];
      if i > 0 {
        assert s[1..][i - 1..] == s[i..];
      } else {
        assert s[0..][0] == s[0] && s[0..][1] == s[1];
      }
    }
  }

  lemma {:induction false} OpensConcat(a: string, b: string)
    requires a == "" || b == "" || a[|a| - 1] != '<' || b[0] != '<'
    ensures Opens(a + b) <==> Opens(a) || Opens(b)
    decreases |a|
  {
    if a == "" {
      assert a + b == b;
    } else if |a| == 1 {
      assert (a + b)[1..] == b;
    } else {
      assert (a + b)[1..] == a[1..] + b;
      OpensConcat(a[1..], b);
    }
  }

  lemma {:induction false} OpensEscape(v: string)
    ensures Opens(Escape(v)) <==> Opens(v)
    ensures Escape(v) != "" && Escape(v)[0] == '<' <==> v != "" && v[0] == '<'
    decreases |v|
  {
    if v != "" {
      OpensEscape(v[1..]);
      var e, rest := EscapeChar(v[0]), Escape(v[1..]);
      if v[0] == '<' {
        assert (e + rest)[1..] == rest;
      } else {
        NoLt(e);
        OpensConcat(e, rest);
      }
    }
  }

  lemma {:induction false} NoLt(s: string)
    requires '<' !in s
    ensures !Opens(s)
    decreases |s|
  {
    if s != "" {
      NoLt(s[1..]);
    }
  }

  lemma {:induction false} EscapeHasNoNewline(v: string)
    requires '\n' !in v
    ensures '\n' !in Escape(v)
    decreases |v|
  {
    if v != "" {
      EscapeHasNoNewline(v[1..]);
    }
  }

  lemma QuotedParts(p: Pair)
    requires '\n' !in p.value
    ensures p.String() == p.key + "=\"" + Escape(p.value) + "\""
  {
  }

  lemma QuotedOpens(p: Pair)
    requires Plain(p.key) && '\n' !in p.value
    ensures Opens(p.String()) <==> Opens(p.value)
    ensures '\n' !in p.String() && p.String() != "" && p.String()[|p.String()| - 1] == '"'
  {
    var k, e := p.key + "=\"", Escape(p.value);
    QuotedParts(p);
    OpensEscape(p.value);
    EscapeHasNoNewline(p.value);
    assert '<' !in k && '\n' !in k;
    NoLt(k);
    OpensConcat(k, e);
    assert !Opens("\"");
    OpensConcat(k + e, "\"");
  }

  lemma ItemOpens(v: string)
    ensures Opens(Item(v)) <==> Opens(v)
    ensures '\n' in Item(v) <==> '\n' in v
  {
    assert !Opens("\"");
    OpensConcat("\"", v);
    OpensConcat("\"" + v, "\"");
    if '\n' in v {
      var k :| 0 <= k < |v| && v[k] == '\n';
      assert Item(v)[k + 1] == '\n';
    }
  }

  lemma {:induction false} ItemsOpen(vs: seq<string>)
    requires forall i :: 0 <= i < |vs| ==> '\n' !in vs[i]
    ensures Opens(Join(Items(vs), ", ")) <==> exists i :: 0 <= i < |vs| && Opens(vs[i])
    ensures '\n' !in Join(Items(vs), ", ")
    decreases |vs|
  {
    if vs != [] {
      ItemOpens(vs[0]);
      if |vs| > 1 {
        var rest := Join(Items(vs[1..]), ", ");
        assert Items(vs)[1..] == Items(vs[1..]);
        ItemsOpen(vs[1..]);
        NoLt(", ");
        OpensConcat(Item(vs[0]), ", ");
        OpensConcat(Item(vs[0]) + ", ", rest);
        SomeOpens(vs);
      }
    }
  }

  lemma SomeOpens(vs: seq<string>)
    requires vs != []
    ensures (exists i :: 0 <= i < |vs| && Opens(vs[i])) <==>
            Opens(vs[0]) || exists i :: 0 <= i < |vs[1..]| && Opens(vs[1..][i])
  {
    if i :| 0 <= i < |vs[1..]| && Opens(vs[1..][i]) {
      assert Opens(vs[i + 1]);
    }
    if i :| 0 <= i < |vs| && Opens(vs[i]) {
      assert i > 0 ==> vs[1..][i - 1] == vs[i];
    }
  }

  lemma ListOpens(k: string, vs: seq<string>)
    requires List(k, vs).IsPlain()
    ensures var s := List(k, vs).String();
            (Opens(s) <==> Opening(List(k, vs))) && '\n' !in s && s != "" && s[|s| - 1] == ']'
  {
    var inner := Join(Items(vs), ", ");
    ItemsOpen(vs);
    NoLt(k + "=");
    NoLt("[");
    NoLt("]");
    OpensConcat("[", inner);
    OpensConcat("[" + inner, "]");
    OpensConcat(k + "=", ArrayText(vs));
  }

  /** A one-line response, as printed. */
  lemma LineOpens(o: Output)
    requires o.IsPlain() && !o.IsBlock()
    ensures Opens(o.String()) <==> Opening(o)
    ensures '\n' !in o.String() && (o.String() != "" ==> o.String()[|o.String()| - 1] != '<')
  {
    match o {
      case Value(p) => QuotedOpens(p);
      case Flag(name) => NoLt(name);
      case List(k, vs) => ListOpens(k, vs);
    }
  }

  // Which replies fit the framing.

  /** The value's lines neither close the block nor end in CR. */
  ghost predicate BlockFits(value: string) {
    forall i :: 0 <= i < |Lines(value)| ==> NoCR(Lines(value)[i]) && !EndsBlock(Lines(value)[i])
  }

  /** A one-line response with "<<" in its value or in an item. */
  predicate Opening(o: Output) {
    match o
    case Value(p) => Opens(p.value)
    case Flag(_) => false
    case List(_, vs) => exists i :: 0 <= i < |vs| && Opens(vs[i])
  }

  /** One-line responses without "<<". */
  predicate NoOpeners(ps: seq<Output>) {
    forall i :: 0 <= i < |ps| ==> !ps[i].IsBlock() && !Opening(ps[i])
  }

  /** One block, with no "<<" after it. */
  ghost predicate OneBlock(ps: seq<Output>) {
    ps != [] && if ps[0].IsBlock() then BlockFits(ps[0].pair.value) && NoOpeners(ps[1..]) else OneBlock(ps[1..])
  }

  ghost predicate Fits(ps: seq<Output>) {
    NoOpeners(ps) || OneBlock(ps)
  }

  /** A text that may follow the last pair. */
  predicate EndOk(end: string) {
    end != "" && end[0] == ' ' && end[|end| - 1] != '\r' && '\n' !in end && '<' !in end
  }

  predicate StartOk(pre: string) {
    '\n' !in pre && (pre != "" ==> pre[|pre| - 1] != '<')
  }

  lemma {:induction false} RestStart(ps: seq<Output>, end: string)
    requires EndOk(end)
    ensures var s := Rest(ps, end); s != "" && s[0] == ' ' && s[|s| - 1] == end[|end| - 1]
    decreases |ps|
  {
    if ps != [] {
      RestStart(ps[1..], end);
    }
  }

  /** Without blocks the rest of the reply is one line, and opens a block just where a value does. */
  lemma {:induction false} RestOfOneLine(ps: seq<Output>, end: string)
    requires EndOk(end)
    requires forall i :: 0 <= i < |ps| ==> ps[i].IsPlain() && !ps[i].IsBlock()
    ensures '\n' !in Rest(ps, end)
    ensures Opens(Rest(ps, end)) <==> !NoOpeners(ps)
    decreases |ps|
  {
    if ps == [] {
      NoLt(end);
    } else {
      LineOpens(ps[0]);
      RestOfOneLine(ps[1..], end);
      RestStart(ps[1..], end);
      NoLt(" ");
      OpensConcat(" ", ps[0].String());
      OpensConcat(" " + ps[0].String(), Rest(ps[1..], end));
      NoOpenersFirst(ps);
    }
  }

  lemma NoOpenersFirst(ps: seq<Output>)
    requires ps != []
    ensures NoOpeners(ps) <==> !ps[0].IsBlock() && !Opening(ps[0]) && NoOpeners(ps[1..])
  {
  }

  /** A block anywhere breaks the line. */
  lemma {:induction false} RestOfBlock(ps: seq<Output>, end: string, i: nat)
    requires i < |ps| && ps[i].IsBlock()
    ensures '\n' in Rest(ps, end)
    decreases i
  {
    if i == 0 {
      assert '\n' in BlockValue(ps[0].pair.value);
      assert '\n' in ps[0].String();
    } else {
      RestOfBlock(ps[1..], end, i - 1);
    }
  }

  lemma BlockTailConcat(a: seq<string>, b: seq<string>)
    requires b != []
    ensures BlockTail(a + b) <==> (forall i :: 0 <= i < |a| ==> NoCR(a[i]) && !EndsBlock(a[i])) && BlockTail(b)
  {
    var c := a + b;
    if BlockTail(c) {
      assert forall i :: 0 <= i < |a| ==> a[i] == c[i];
      assert forall i :: 0 <= i < |b| ==> b[i] == c[|a| + i];
    } else if forall i :: 0 <= i < |a| ==> NoCR(a[i]) && !EndsBlock(a[i]) {
      assert c[|c| - 1] == b[|b| - 1];
      assert forall i :: |a| <= i < |c| ==> c[i] == b[i - |a|];
    }
  }

  lemma NoCRAtEnd(l: string)
    requires l != "" && l[|l| - 1] != '\r'
    ensures NoCR(l)
  {
  }

  lemma ClosingLine(rest: string)
    requires rest != "" && rest[0] == ' ' && rest[|rest| - 1] != '\r' && '\n' !in rest
    ensures BlockTail(Lines(">>" + rest)) <==> !Opens(rest)
  {
    var l := ">>" + rest;
    OneLine(l);
    NoCRAtEnd(l);
    assert !Opens(">>");
    OpensConcat(">>", rest);
    OpensIsContains(l);
    assert l[..3] == ">> ";
    assert HasPrefix(l, ">> ");
    assert [l][|[l]| - 1] == l;
  }

  /** Behind a block only values without newlines and "<<" may follow. */
  lemma AfterBlock(ps: seq<Output>, end: string)
    requires EndOk(end)
    requires forall i :: 0 <= i < |ps| ==> ps[i].IsPlain()
    ensures BlockTail(Lines(">>" + Rest(ps, end))) <==> NoOpeners(ps)
  {
    RestStart(ps, end);
    if i :| 0 <= i < |ps| && ps[i].IsBlock() {
      RestOfBlock(ps, end, i);
      FirstLineCloses(Rest(ps, end));
    } else {
      RestOfOneLine(ps, end);
      ClosingLine(Rest(ps, end));
    }
  }

  lemma FirstLineCloses(rest: string)
    requires rest != "" && rest[0] == ' ' && '\n' in rest
    ensures !BlockTail(Lines(">>" + rest))
  {
    var k := FindMark(rest, '\n');
    var l, after := ">>" + rest[..k], rest[k + 1..];
    assert ">>" + rest == l + "\n" + after;
    LinesFirst(l, after);
    var ls := Lines(">>" + rest);
    assert ls[0] == l && |ls| > 1;
    assert l[..3] == ">> ";
    assert HasPrefix(l, ">> ");
  }

  /** The lines of a text whose next pair is a block. */
  lemma BlockLines(pre: string, p: Pair, rest: string)
    requires '\n' !in pre && '\n' in p.value && Plain(p.key)
    ensures Lines(pre + (" " + p.String() + rest)) ==
            [pre + " " + p.key + "=<<"] + (Lines(p.value) + Lines(">>" + rest))
  {
    var first := pre + " " + p.key + "=<<";
    var after := p.value + "\n" + (">>" + rest);
    assert pre + (" " + p.String() + rest) == first + "\n" + after;
    LinesFirst(first, after);
    WrittenAllLines(p.value, ">>" + rest);
  }

  /** What the lines of the text are to be, given whether its first line already opens a block. */
  ghost predicate RestFits(ps: seq<Output>, already: bool) {
    OneBlock(ps) || (!already && NoOpeners(ps))
  }

  lemma BlockFraming(first: string, body: seq<string>, tail: seq<string>)
    requires |first| >= 2 && first[|first| - 2] == first[|first| - 1] == '<' && tail != []
    ensures FramedLines([first] + (body + tail)) <==>
            (forall i :: 0 <= i < |body| ==> NoCR(body[i]) && !EndsBlock(body[i])) && BlockTail(tail)
  {
    var ls := [first] + (body + tail);
    assert ls[1..] == body + tail;
    BlockTailConcat(body, tail);
    NoCRAtEnd(first);
    assert "<<" <= first[|first| - 2..];
    assert Contains(first, "<<");
  }

  lemma BlockNext(pre: string, ps: seq<Output>, end: string)
    requires StartOk(pre) && EndOk(end) && ps != [] && ps[0].IsBlock()
    requires forall i :: 0 <= i < |ps| ==> ps[i].IsPlain()
    ensures FramedLines(Lines(pre + Rest(ps, end))) <==> OneBlock(ps)
  {
    var rest := Rest(ps[1..], end);
    BlockLines(pre, ps[0].pair, rest);
    BlockFraming(pre + " " + ps[0].pair.key + "=<<", Lines(ps[0].pair.value), Lines(">>" + rest));
    AfterBlock(ps[1..], end);
  }

  lemma LastLine(pre: string, end: string)
    requires StartOk(pre) && EndOk(end)
    ensures FramedLines(Lines(pre + end)) <==> !Opens(pre)
  {
    OneLine(pre + end);
    NoCRAtEnd(pre + end);
    NoLt(end);
    OpensConcat(pre, end);
    OpensIsContains(pre + end);
  }

  /** A one-line response only lengthens the line being written. */
  lemma LineNext(pre: string, o: Output, rest: string)
    requires StartOk(pre) && o.IsPlain() && !o.IsBlock()
    ensures var pre' := pre + " " + o.String();
            StartOk(pre') && (Opens(pre') <==> Opens(pre) || Opening(o)) &&
            pre + (" " + o.String() + rest) == pre' + rest
  {
    var text := o.String();
    LineOpens(o);
    assert !Opens(" ");
    OpensConcat(pre, " ");
    OpensConcat(pre + " ", text);
    LastOfThree(pre, text);
    ThreeParts(pre, text, rest);
  }

  lemma LastOfThree(pre: string, text: string)
    ensures var s := pre + " " + text; s[|s| - 1] == if text == "" then ' ' else text[|text| - 1]
  {
  }

  lemma ThreeParts(pre: string, text: string, rest: string)
    ensures pre + (" " + text + rest) == pre + " " + text + rest
  {
  }

  lemma {:induction false} RestFraming(pre: string, ps: seq<Output>, end: string)
    requires StartOk(pre) && EndOk(end)
    requires forall i :: 0 <= i < |ps| ==> ps[i].IsPlain()
    ensures FramedLines(Lines(pre + Rest(ps, end))) <==> RestFits(ps, Opens(pre))
    decreases |ps|
  {
    if ps == [] {
      LastLine(pre, end);
    } else if ps[0].IsBlock() {
      BlockNext(pre, ps, end);
    } else {
      LineNext(pre, ps[0], Rest(ps[1..], end));
      RestFraming(pre + " " + ps[0].String(), ps[1..], end);
      NoOpenersFirst(ps);
    }
  }

  /**
   A reply fits the framing exactly when its values are all one-line without "<<", or
   one of them is a block whose lines do not close it or end in CR and no value after
   that one has a newline or "<<".
   */
  lemma WireFramed(r: Reply)
    requires r.IsPlain()
    ensures Framed(r.Wire()) <==> Fits(r.responses)
  {
    WireIsRest(r);
    WireTrimmed(r);
    HeadOpensNothing(r);
    RestFraming(Head(r), r.responses, r.End());
  }

  lemma HeadOpensNothing(r: Reply)
    requires r.IsPlain()
    ensures StartOk(Head(r)) && !Opens(Head(r)) && EndOk(r.End())
  {
    EndsAreQuiet(r);
    assert forall i :: 0 <= i < |Head(r)| ==> Head(r)[i] != '<';
    NoLt(Head(r));
    assert '\n' !in "~" + r.handle && '\n' !in "~" + r.handle + ":" + r.subject;
    assert '\n' !in " ok cast=" + r.cast;
    assert r.End()[|r.End()| - 1] == 'E';
  }

  /**
   From the hub's printer through the far end's reader: a reply written with a newline
   is read back as exactly that one message if and only if its values fit.
   */
  lemma WireReadBack(r: Reply, rest: string)
    requires r.IsPlain()
    ensures ReadLines(Complete(r.Wire() + "\n" + rest), "", false) == Message(r.Wire(), Complete(rest))
            <==> Fits(r.responses)
  {
    WireFramed(r);
    WrittenMessage(r.Wire(), rest);
  }

  // Where the values stand in the text.

  function KeyOf(o: Output): string
    requires !o.Flag?
  {
    if o.Value? then o.pair.key else o.key
  }

  function ValueOf(o: Output): string
    requires !o.Flag?
  {
    if o.Value? then o.pair.ValueText() else ArrayText(o.items)
  }

  /** The text up to the value of response `i`. */
  function BeforeValue(r: Reply, i: nat): string
    requires i < |r.responses| && !r.responses[i].Flag?
  {
    Head(r) + Rest(r.responses[..i], "") + " " + KeyOf(r.responses[i]) + "="
  }

  lemma {:induction false} RestParts(ps: seq<Output>, i: nat, end: string)
    requires i < |ps|
    ensures Rest(ps, end) == Rest(ps[..i], "") + (" " + ps[i].String() + Rest(ps[i + 1..], end))
    decreases i
  {
    if i > 0 {
      RestParts(ps[1..], i - 1, end);
      assert ps[1..][..i - 1] == ps[..i][1..] && ps[1..][i..] == ps[i + 1..];
      Regroup(ps[0].String(), Rest(ps[..i][1..], ""), " " + ps[i].String() + Rest(ps[i + 1..], end));
    }
  }

  lemma Regroup(text: string, a: string, b: string)
    ensures " " + text + (a + b) == " " + text + a + b
  {
  }

  lemma WireParts(r: Reply, i: nat)
    requires i < |r.responses| && !r.responses[i].Flag?
    ensures r.Wire() == BeforeValue(r, i) + ValueOf(r.responses[i]) + Rest(r.responses[i + 1..], r.End())
  {
    var o, before, after := r.responses[i], Rest(r.responses[..i], ""), Rest(r.responses[i + 1..], r.End());
    WireIsRest(r);
    RestParts(r.responses, i, r.End());
    FourParts(Head(r), before, KeyOf(o), ValueOf(o), after);
  }

  lemma FourParts(head: string, before: string, key: string, value: string, after: string)
    ensures head + (before + (" " + (key + "=" + value) + after)) == (head + before + " " + key + "=") + value + after
  {
  }

  /** The stage scanner comes to a value right behind its "=", outside everything. */
  lemma PassesBefore(r: Reply, i: nat)
    requires r.IsPlain() && AllNeutral(r.responses) && i < |r.responses| && !r.responses[i].Flag?
    ensures Passes(PipeSplit.START, BeforeValue(r, i), AFTER_EQ)
  {
    var start := PipeSplit.START;
    EndsAreQuiet(r);
    var h, b, key := Head(r), Rest(r.responses[..i], ""), KeyOf(r.responses[i]);
    var q := PassesQuiet(start, h);
    var q' := PassesRest(q, r.responses[..i], "");
    PassesConcat(start, h, q, b, q');
    SpaceToStart(q');
    PassesConcat(start, h + b, q', " ", start);
    PassesKey(key);
    PassesConcat(start, h + b + " ", start, key + "=", AFTER_EQ);
    assert h + b + " " + (key + "=") == BeforeValue(r, i);
  }

  lemma PassesKey(key: string)
    requires Plain(key)
    ensures Passes(PipeSplit.START, key + "=", AFTER_EQ)
  {
    PassesPlain(key);
    PassesChar(PipeSplit.START, '=');
    PassesConcat(PipeSplit.START, key, PipeSplit.START, "=", AFTER_EQ);
  }

  lemma PassesValue(o: Output)
    requires o.IsPlain() && o.IsNeutral() && !o.Flag?
    ensures Passes(AFTER_EQ, ValueOf(o), PipeSplit.START)
  {
    match o {
      case Value(p) =>
        if '\n' in p.value {
          PassesBlock(p.value);
        } else {
          PassesQuoted(p.value);
        }
      case List(k, vs) =>
        PassesKey(k);
        RunConcat(PipeSplit.STAGES, PipeSplit.START, k + "=", ArrayText(vs));
        UncutConcat(PipeSplit.STAGES, PipeSplit.START, k + "=", ArrayText(vs));
    }
  }

  /** What the text of a value gives: the block's text, the quoted value, or, for items all clean, the array. */
  ghost predicate Gives(text: string, o: Output) {
    match o
    case Value(p) => if '\n' in p.value then text == BlockValue(p.value) else UnquoteValue(text) == p.value
    case List(_, vs) => StringsOf(text) == vs <==> forall i :: 0 <= i < |vs| ==> Clean(vs[i])
    case Flag(_) => true
  }

  /**
   The printed value of response `i` stands in `text` where the stage scanner has just
   read its key and "=", takes the scanner back to the neutral state, and gives the value.
   */
  ghost predicate ValueRead(text: string, r: Reply, i: nat)
    requires i < |r.responses| && !r.responses[i].Flag?
  {
    var o, k := r.responses[i], |BeforeValue(r, i)|;
    var n := k + |ValueOf(o)|;
    && n <= |text| && text[..k] == BeforeValue(r, i)
    && Passes(PipeSplit.START, text[..k], AFTER_EQ) && Passes(AFTER_EQ, text[k..n], PipeSplit.START)
    && Gives(text[k..n], o)
  }

  lemma ValueIsRead(r: Reply, i: nat)
    requires r.IsPlain() && AllNeutral(r.responses) && i < |r.responses| && !r.responses[i].Flag?
    ensures ValueRead(r.Wire(), r, i)
  {
    var o, before, after := r.responses[i], BeforeValue(r, i), Rest(r.responses[i + 1..], r.End());
    WireParts(r, i);
    PassesBefore(r, i);
    MiddlePart(before, ValueOf(o), after);
    PassesValue(o);
    if o.List? {
      ArrayRoundTrip(o.items);
    } else if '\n' !in o.pair.value {
      UnquotePrinted(o.pair.value);
    }
  }

  lemma MiddlePart(a: string, b: string, c: string)
    ensures |a| + |b| <= |a + b + c| && (a + b + c)[..|a|] == a && (a + b + c)[|a|..|a| + |b|] == b
  {
  }

  /** And such a reply goes on as one stage, in which every value is found where it was printed. */
  lemma WireEndToEnd(r: Reply, rest: string)
    requires r.IsPlain() && Fits(r.responses) && AllNeutral(r.responses)
    ensures var got := ReadLines(Complete(r.Wire() + "\n" + rest), "", false);
            && got == Message(r.Wire(), Complete(rest))
            && PipeSplit.Split(got.text) == [r.Wire()]
            && !PipeSplit.IsPipe(got.text)
            && forall i :: 0 <= i < |r.responses| && !r.responses[i].Flag? ==> ValueRead(got.text, r, i)
  {
    WireReadBack(r, rest);
    WireIsOneStage(r);
    forall i | 0 <= i < |r.responses| && !r.responses[i].Flag?
      ensures ValueRead(r.Wire(), r, i)
    {
      ValueIsRead(r, i);
    }
  }

  // The ends of a reply.

  lemma {:induction false} RestEnd(ps: seq<Output>, end: string)
    ensures Rest(ps, end) == Rest(ps, "") + end
    decreases |ps|
  {
    if ps == [] {
      assert "" + end == end;
    } else {
      RestEnd(ps[1..], end);
      Reassociate(" " + ps[0].String(), Rest(ps[1..], ""), end);
    }
  }

  lemma Words(a: string, b: string, c: string)
    requires ' ' !in a && ' ' !in b && ' ' !in c
    ensures SplitOn(" " + a + " " + b + " " + c, ' ') == ["", a, b, c]
  {
    Reassociate(" " + a + " ", b, " ");
    Reassociate(" " + a + " ", b + " ", c);
    Reassociate(" ", a, " ");
    Reassociate(" ", a + " ", b + " " + c);
    assert "" + " " + (a + " " + (b + " " + c)) == " " + (a + " " + (b + " " + c));
    SplitFirst("", a + " " + (b + " " + c), ' ');
    SplitFirst(a, b + " " + c, ' ');
    SplitFirst(b, c, ' ');
    SplitNone(c, ' ');
  }

  lemma EndWords(cast: string)
    ensures " ok cast=" + cast + " capture=dev.sporeos.SPORE" ==
            " " + "ok" + " " + ("cast=" + cast) + " " + "capture=dev.sporeos.SPORE"
  {
    var e := "capture=dev.sporeos.SPORE";
    assert " " + e == " capture=dev.sporeos.SPORE";
    assert " " + "ok" + " " + "cast=" == " ok cast=";
    Reassociate(" " + "ok" + " ", "cast=", cast);
    Reassociate(" ok cast=" + cast, " ", e);
  }

  lemma SplitOk(cast: string)
    requires ' ' !in cast
    ensures SplitOn(" ok cast=" + cast + " capture=dev.sporeos.SPORE", ' ') ==
            ["", "ok", "cast=" + cast, "capture=dev.sporeos.SPORE"]
  {
    EndWords(cast);
    Words("ok", "cast=" + cast, "capture=dev.sporeos.SPORE");
  }

  /**
   A reply begins with its handle and subject. Behind its last response, where the stage
   scanner stands outside everything, come its flag "ok", its cast and its capture, with a
   space before each.
   */
  lemma EndsRead(r: Reply)
    requires r.IsPlain() && AllNeutral(r.responses)
    ensures "~" + r.handle + ":" + r.subject + " " <= r.Wire()
    ensures var k := |Head(r) + Rest(r.responses, "")|;
            && k <= |r.Wire()|
            && (Passes(PipeSplit.START, r.Wire()[..k], PipeSplit.START) || Passes(PipeSplit.START, r.Wire()[..k], AFTER_EQ))
            && SplitOn(r.Wire()[k..], ' ') == ["", "ok", "cast=" + r.cast, "capture=dev.sporeos.SPORE"]
  {
    WireIsRest(r);
    RestEnd(r.responses, r.End());
    var h, b := Head(r), Rest(r.responses, "");
    Reassociate(h, b, r.End());
    assert r.Wire()[..|h + b|] == h + b && r.Wire()[|h + b|..] == r.End();
    EndsAreQuiet(r);
    var q := PassesQuiet(PipeSplit.START, h);
    var q' := PassesRest(q, r.responses, "");
    PassesConcat(PipeSplit.START, h, q, b, q');
    SplitOk(r.cast);
  }
}
