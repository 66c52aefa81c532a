/** The hub's own replies on the wire (spored/internal/message/spore.go), through framing and splitting. */
module Wire {
  import opened Text
  import opened PipeSplit
  import opened PipeLaws
  import opened Printing
  import opened Arrays

  /** What a reply can hold: key/value pairs, flags and arrays of strings (utilities/out). */
  datatype Output = Value(pair: Pair) | Flag(name: string) | List(key: string, items: seq<string>) {
    function String(): string {
      match this
      case Value(p) => p.String()
      case Flag(name) => name
      case List(k, vs) => k + "=" + ArrayText(vs)
    }

    /** Keys and flags are plain, and arrays are printed on one line. */
    predicate IsPlain() {
      match this
      case Value(p) => Plain(p.key)
      case Flag(name) => Plain(name)
      case List(k, vs) => Plain(k) && forall i :: 0 <= i < |vs| ==> '\n' !in vs[i]
    }

    predicate IsBlock() {
      Value? && '\n' in pair.value
    }

    /**
     No line of a block begins with ">>", and an array leaves the stage scanner as it
     found it; any one-line value and any flag does anyway.
     */
    ghost predicate IsNeutral() {
      && (IsBlock() ==> NoCloser(pair.value, true))
      && (List? ==> Passes(START, String(), START))
    }
  }

  ghost predicate AllNeutral(os: seq<Output>) {
    forall i :: 0 <= i < |os| ==> os[i].IsNeutral()
  }

  datatype Reply = Reply(handle: string, subject: string, responses: seq<Output>, cast: string) {
    function End(): string {
      " ok cast=" + cast + " capture=dev.sporeos.SPORE"
    }

    function Wire(): string {
      "~" + handle + ":" + subject + " " + Join(Strings(responses), " ") + End()
    }

    predicate IsPlain() {
      && Plain(handle) && Plain(subject) && Plain(cast)
      && forall i :: 0 <= i < |responses| ==> responses[i].IsPlain()
    }
  }

  function Strings(ps: seq<Output>): (ss: seq<string>)
    ensures |ss| == |ps|
    ensures forall i :: 0 <= i < |ps| ==> ss[i] == ps[i].String()
  {
    seq(|ps|, i requires 0 <= i < |ps| => ps[i].String())
  }

  function StillToCome(ss: seq<string>): string {
    if ss == [] then "" else " " + Join(ss, " ")
  }

  /** The first `i` responses are written. */
  ghost predicate Printed(responses: seq<string>, i: nat, res: string) {
    && i <= |responses|
    && if i == 0 then res == "" else Join(responses, " ") == res + StillToCome(responses[i..])
  }

  lemma PrintTurn(responses: seq<string>, i: nat, res: string)
    requires i < |responses| && Printed(responses, i, res)
    ensures Printed(responses, i + 1, if i == 0 then res + responses[i] else res + " " + responses[i])
  {
    var rest := responses[i..];
    assert rest[0] == responses[i] && rest[1..] == responses[i + 1..];
    JoinFirst(rest);
    if i == 0 {
      assert rest == responses;
      assert "" + responses[0] == responses[0];
    } else {
      Reassociate(res, " ", Join(rest, " "));
      Reassociate(res + " ", responses[i], StillToCome(rest[1..]));
    }
  }

  lemma JoinFirst(ss: seq<string>)
    requires ss != []
    ensures Join(ss, " ") == ss[0] + StillToCome(ss[1..])
  {
    if |ss| == 1 {
      assert ss[0] + "" == ss[0];
    } else {
      Reassociate(ss[0], " ", Join(ss[1..], " "));
    }
  }

  method ResponsesToString(responses: seq<string>) returns (res: string)
    ensures res == Join(responses, " ")
  {
    res := "";
    for i := 0 to |responses|
      invariant Printed(responses, i, res)
    {
      PrintTurn(responses, i, res);
      if i == 0 {
        res := res + responses[i];
      } else {
        res := res + " " + responses[i];
      }
    }
    assert responses[|responses|..] == [];
  }

  /** The responses and what follows them, each after a space. */
  function Rest(ps: seq<Output>, end: string): string {
    if ps == [] then end else " " + ps[0].String() + Rest(ps[1..], end)
  }

  lemma {:induction false} JoinIsRest(ps: seq<Output>, end: string)
    requires |ps| > 0
    ensures " " + Join(Strings(ps), " ") + end == Rest(ps, end)
    decreases |ps|
  {
    assert Strings(ps)[1..] == Strings(ps[1..]);
    if |ps| == 1 {
      assert Rest(ps[1..], end) == end;
    } else {
      JoinIsRest(ps[1..], end);
      FirstOff(ps[0].String(), Join(Strings(ps[1..]), " "), end);
    }
  }

  lemma FirstOff(text: string, j: string, end: string)
    ensures " " + (text + " " + j) + end == " " + text + (" " + j + end)
  {
  }

  function Head(r: Reply): string {
    "~" + r.handle + ":" + r.subject + if r.responses == [] then " " else ""
  }

  lemma WireIsRest(r: Reply)
    ensures r.Wire() == Head(r) + Rest(r.responses, r.End())
  {
    var h, j := "~" + r.handle + ":" + r.subject, Join(Strings(r.responses), " ");
    if r.responses == [] {
      assert j == "" && h + " " + "" == h + " ";
    } else {
      JoinIsRest(r.responses, r.End());
      HeadOff(h, j, r.End());
      assert h + "" == h;
    }
  }

  lemma HeadOff(h: string, j: string, end: string)
    ensures h + " " + j + end == h + (" " + j + end)
  {
  }

  // Through the stage scanner.

  /** Characters that leave the scanner outside quotes, brackets and blocks. */
  predicate Quiet(s: string) {
    Free(s, "'\"[]{}|<")
  }

  lemma PlainIsQuiet(s: string)
    requires Plain(s)
    ensures Quiet(s)
  {
  }

  predicate Between(q: Scan) {
    q == START || q == AFTER_EQ
  }

  lemma {:induction false} PassesQuiet(q: Scan, s: string) returns (q': Scan)
    requires Between(q) && Quiet(s)
    ensures Between(q') && Passes(q, s, q')
    decreases |s|
  {
    if s == "" {
      q' := q;
    } else {
      q' := PassesQuiet(PipeSplit.Step(q, s[0]), s[1..]);
    }
  }

  lemma SpaceToStart(q: Scan)
    requires Between(q)
    ensures Passes(q, " ", START)
  {
  }

  lemma OutputPasses(o: Output)
    requires o.IsPlain() && o.IsNeutral()
    ensures Passes(START, o.String(), START)
  {
    match o {
      case Value(p) => PairIsNeutral(p);
      case Flag(name) => PassesPlain(name);
      case List(_, _) =>
    }
  }

  lemma {:induction false} PassesRest(q: Scan, ps: seq<Output>, end: string) returns (q': Scan)
    requires Between(q) && Quiet(end)
    requires forall i :: 0 <= i < |ps| ==> ps[i].IsPlain() && ps[i].IsNeutral()
    ensures Between(q') && Passes(q, Rest(ps, end), q')
    decreases |ps|
  {
    if ps == [] {
      q' := PassesQuiet(q, end);
    } else {
      SpaceToStart(q);
      OutputPasses(ps[0]);
      PassesConcat(q, " ", START, ps[0].String(), START);
      q' := PassesRest(START, ps[1..], end);
      PassesConcat(q, " " + ps[0].String(), START, Rest(ps[1..], end), q');
    }
  }

  lemma WireTrimmed(r: Reply)
    ensures r.Wire() != "" && Trimmed(r.Wire())
  {
  }

  /**
   A reply is never taken for a pipe, and splitting it gives it back whole, whatever bars,
   quotes and brackets its values hold, if no line of a block value begins with ">>" and
   its arrays leave the scanner as they found it.
   */
  lemma WireIsOneStage(r: Reply)
    requires r.IsPlain()
    requires AllNeutral(r.responses)
    ensures Split(r.Wire()) == [r.Wire()] && !IsPipe(r.Wire())
  {
    WireIsRest(r);
    WireTrimmed(r);
    EndsAreQuiet(r);
    var q := PassesQuiet(START, Head(r));
    var q' := PassesRest(q, r.responses, r.End());
    PassesConcat(START, Head(r), q, Rest(r.responses, r.End()), q');
    SplitUncut(r.Wire());
  }

  lemma QuietConcat(a: string, b: string)
    requires Quiet(a) && Quiet(b)
    ensures Quiet(a + b)
  {
  }

  lemma EndsAreQuiet(r: Reply)
    requires r.IsPlain()
    ensures Quiet(Head(r)) && Quiet(r.End())
  {
    PlainIsQuiet(r.handle);
    PlainIsQuiet(r.subject);
    PlainIsQuiet(r.cast);
    var a, b := " ok cast=", " capture=dev.sporeos.SPORE";
    assert Quiet(a) && Quiet(b);
    QuietConcat(a, r.cast);
    QuietConcat(a + r.cast, b);
    var h := "~" + r.handle;
    assert Quiet("~") && Quiet(":") && Quiet(" ") && Quiet("");
    QuietConcat("~", r.handle);
    QuietConcat(h, ":");
    QuietConcat(h + ":", r.subject);
    QuietConcat(h + ":" + r.subject, if r.responses == [] then " " else "");
  }

  // Arrays through the stage scanner.

  const IN_ARRAY := Scan(false, false, 1, 0, Other)

  predicate InItem(q: Scan) {
    (q.tail.Other? || q.tail.Eq?) && q.(tail := Other) == Scan(false, true, 1, 0, Other)
  }

  /**
   The rest of an item, read within its quotes or between two quoted parts of it, ends
   within quotes, so that the printer's closing quote is the last one. Outside quotes it
   holds no bracket and no single quote.
   */
  predicate Settles(v: string, quoted: bool)
    decreases |v|
  {
    if v == "" then quoted
    else if v[0] == '"' then Settles(v[1..], !quoted)
    else if !quoted then v[0] !in "'[]{}" && Settles(v[1..], quoted)
    else if v[0] == '\\' then |v| > 1 && Settles(v[2..], quoted)
    else Settles(v[1..], quoted)
  }

  predicate OutsideItem(q: Scan) {
    (q.tail.Other? || q.tail.Eq?) && q.(tail := Other) == IN_ARRAY
  }

  lemma {:induction false} PassesItemText(q: Scan, v: string, quoted: bool) returns (q': Scan)
    requires if quoted then InItem(q) else OutsideItem(q)
    requires Settles(v, quoted)
    ensures InItem(q') && Passes(q, v, q')
    decreases |v|
  {
    if v == "" {
      q' := q;
    } else if v[0] == '\\' && quoted {
      var q1 := PipeSplit.Step(q, v[0]);
      var q2 := PipeSplit.Step(q1, v[1]);
      q' := PassesItemText(q2, v[2..], true);
      PassesChar(q, v[0]);
      PassesChar(q1, v[1]);
      PassesConcat(q, [v[0]], q1, [v[1]], q2);
      PassesConcat(q, [v[0]] + [v[1]], q2, v[2..], q');
      assert v == [v[0]] + [v[1]] + v[2..];
    } else {
      var q1 := PipeSplit.Step(q, v[0]);
      q' := PassesItemText(q1, v[1..], if v[0] == '"' then !quoted else quoted);
      PassesChar(q, v[0]);
      PassesConcat(q, [v[0]], q1, v[1..], q');
      assert v == [v[0]] + v[1..];
    }
  }

  lemma PassesItem(v: string)
    requires Settles(v, true)
    ensures Passes(IN_ARRAY, Item(v), IN_ARRAY)
  {
    var q := PipeSplit.Step(IN_ARRAY, '"');
    PassesChar(IN_ARRAY, '"');
    var q' := PassesItemText(q, v, true);
    PassesConcat(IN_ARRAY, "\"", q, v, q');
    PassesChar(q', '"');
    PassesConcat(IN_ARRAY, "\"" + v, q', "\"", IN_ARRAY);
  }

  lemma {:induction false} PassesItems(vs: seq<string>)
    requires forall i :: 0 <= i < |vs| ==> Settles(vs[i], true)
    ensures Passes(IN_ARRAY, Join(Items(vs), ", "), IN_ARRAY)
    decreases |vs|
  {
    if vs != [] {
      PassesItem(vs[0]);
      if |vs| > 1 {
        assert Items(vs)[1..] == Items(vs[1..]);
        PassesChar(IN_ARRAY, ',');
        PassesChar(IN_ARRAY, ' ');
        PassesConcat(IN_ARRAY, ",", IN_ARRAY, " ", IN_ARRAY);
        assert "," + " " == ", ";
        PassesConcat(IN_ARRAY, Item(vs[0]), IN_ARRAY, ", ", IN_ARRAY);
        PassesItems(vs[1..]);
        PassesConcat(IN_ARRAY, Item(vs[0]) + ", ", IN_ARRAY, Join(Items(vs[1..]), ", "), IN_ARRAY);
      }
    }
  }

  /** Without backslashes and quotes nothing has to settle. */
  lemma {:induction false} PlainSettles(v: string)
    requires '"' !in v && '\\' !in v
    ensures Settles(v, true)
    decreases |v|
  {
    if v != "" {
      PlainSettles(v[1..]);
    }
  }

  function Quotes(v: string): nat {
    if v == "" then 0 else (if v[0] == '"' then 1 else 0) + Quotes(v[1..])
  }

  /** Nor with an even number of double quotes, when there are no backslashes, single quotes and brackets either. */
  lemma {:induction false} EvenQuotesSettle(v: string, quoted: bool)
    requires Free(v, "\\'[]{}")
    ensures Settles(v, quoted) <==> (Quotes(v) % 2 == 0) == quoted
    decreases |v|
  {
    if v != "" {
      EvenQuotesSettle(v[1..], if v[0] == '"' then !quoted else quoted);
    }
  }

  /** An array whose items settle is neutral, whatever bars they hold, and whatever brackets within their quotes. */
  lemma ArrayIsNeutral(k: string, vs: seq<string>)
    requires Plain(k) && forall i :: 0 <= i < |vs| ==> Settles(vs[i], true)
    ensures List(k, vs).IsNeutral()
  {
    var inner := Join(Items(vs), ", ");
    PassesPlain(k);
    PassesChar(START, '=');
    PassesConcat(START, k, START, "=", AFTER_EQ);
    PassesChar(AFTER_EQ, '[');
    PassesItems(vs);
    PassesConcat(AFTER_EQ, "[", IN_ARRAY, inner, IN_ARRAY);
    PassesChar(IN_ARRAY, ']');
    PassesConcat(AFTER_EQ, "[" + inner, IN_ARRAY, "]", START);
    PassesConcat(START, k + "=", AFTER_EQ, ArrayText(vs), START);
  }
}
