/** What a pipe's run does, whatever the parser, the bus and the responses do. */
module StageLaws {
  import opened Text
  import opened Lists
  import opened Casts
  import opened Numbers
  import opened Stages
  import opened Wrappers
  import PipeSplit
  import PipeLaws

  // The shape of a run.

  /**
   Stages act in order, one action each; the one exception is an error, which is the
   last action and comes from the stage then running or the one after the last to act.
   Without an error every stage has acted.
   */
  ghost predicate WellShaped(done: seq<Action>, i: nat, n: nat) {
    && (forall j :: 0 <= j < |done| && !done[j].Failed? ==> done[j].stage == i + j < n)
    && (forall j :: 0 <= j < |done| && done[j].Failed? ==>
          j == |done| - 1 && (done[j].stage == i + j < n || (j > 0 && done[j].stage == i + j - 1)))
    && ((forall j :: 0 <= j < |done| ==> !done[j].Failed?) ==> |done| == n - i)
  }

  lemma ShapeBehind(action: Action, rest: seq<Action>, i: nat, n: nat)
    requires i < n && !action.Failed? && action.stage == i
    requires WellShaped(rest, i + 1, n)
    ensures WellShaped([action] + rest, i, n)
  {
    var done := [action] + rest;
    assert forall j :: 0 < j < |done| ==> done[j] == rest[j - 1];
    if forall j :: 0 <= j < |done| ==> !done[j].Failed? {
      assert forall j :: 0 <= j < |rest| ==> rest[j] == done[j + 1];
    }
  }

  /** A stage stops with an error, or after a last request; else it acts once and goes on. */
  ghost predicate EndShape(r: StageEnd, i: nat, n: nat) {
    match r
    case Go(action, _) => !action.Failed? && action.stage == i
    case Stop(actions) =>
      || (|actions| == 1 && actions[0].Failed? && actions[0].stage == i)
      || (|actions| == 1 && i + 1 == n && !actions[0].Failed? && actions[0].stage == i)
      || (|actions| == 2 && !actions[0].Failed? && actions[1].Failed? && actions[0].stage == actions[1].stage == i)
  }

  lemma RequestShape(w: World, i: nat, pm: Parsed, n: nat, id: string, origin: string, c: Carried)
    ensures EndShape(RequestStage(w, i, pm, i + 1 == n, id, origin, c), i, n)
  {
  }

  lemma StageShape(w: World, i: nat, segment: string, n: nat, id: string, origin: string, c: Carried)
    ensures EndShape(Stage(w, i, segment, i + 1 == n, id, origin, c), i, n)
  {
    var own := w.parse(Trim(segment));
    if own.Some? {
      RequestShape(w, i, Merged(own.value, c), n, id, origin, c);
    }
  }

  lemma StopShape(actions: seq<Action>, i: nat, n: nat)
    requires i < n && EndShape(Stop(actions), i, n)
    ensures WellShaped(actions, i, n)
  {
  }

  /** Every turn ends in one of the ways a stage can. */
  ghost predicate EndsWell(turn: Turn, n: nat) {
    forall i: nat, c :: i < n ==> EndShape(turn(i, c), i, n)
  }

  lemma TurnsEndWell(w: World, parts: seq<string>, id: string, origin: string)
    ensures EndsWell(Turns(w, parts, id, origin), |parts|)
  {
    forall i: nat, c | i < |parts|
      ensures EndShape(Turns(w, parts, id, origin)(i, c), i, |parts|)
    {
      StageShape(w, i, parts[i], |parts|, id, origin, c);
    }
  }

  lemma {:induction false} RunShape(turn: Turn, n: nat, i: nat, c: Carried)
    requires i <= n && EndsWell(turn, n)
    ensures WellShaped(RunFrom(turn, n, i, c), i, n)
    decreases n - i
  {
    if i < n {
      match turn(i, c) {
        case Stop(actions) => StopShape(actions, i, n);
        case Go(action, c') =>
          RunShape(turn, n, i + 1, c');
          ShapeBehind(action, RunFrom(turn, n, i + 1, c'), i, n);
      }
    }
  }

  /** The calling node gets at most one error, and nothing happens after it; without one every stage acts, in order. */
  lemma AtMostOneError(w: World, parts: seq<string>, id: string, origin: string)
    ensures var done := Run(w, parts, id, origin);
            && WellShaped(done, 0, |parts|)
            && forall j, k :: 0 <= j < |done| && 0 <= k < |done| && done[j].Failed? && done[k].Failed? ==> j == k
  {
    TurnsEndWell(w, parts, id, origin);
    RunShape(Turns(w, parts, id, origin), |parts|, 0, NONE_CARRIED);
  }

  // What the stages hand on.

  predicate IsRequest(segment: string) {
    !IsWitness(Trim(segment)) && !IsPublish(Trim(segment))
  }

  /** Stage `j` sent a request and its response carries arguments and flags. */
  predicate Replies(w: World, parts: seq<string>, j: nat)
    requires j < |parts|
  {
    IsRequest(parts[j]) && w.wait(j).Reply?
  }

  /** What is carried into stage `k`: the responses of the request stages before it, in order. */
  function CarriedInto(w: World, parts: seq<string>, k: nat): Carried
    requires k <= |parts|
  {
    if k == 0 then NONE_CARRIED
    else
      var c := CarriedInto(w, parts, k - 1);
      if Replies(w, parts, k - 1) then Carry(c, w.wait(k - 1).args, w.wait(k - 1).flags) else c
  }

  lemma StageCarries(w: World, parts: seq<string>, i: nat, id: string, origin: string)
    requires i < |parts|
    ensures var r := Stage(w, i, parts[i], i + 1 == |parts|, id, origin, CarriedInto(w, parts, i));
            r.Go? ==> i + 1 == |parts| || r.carried == CarriedInto(w, parts, i + 1)
  {
  }

  /** The stage does the action first. */
  predicate Does(r: StageEnd, a: Action) {
    match r
    case Stop(actions) => actions != [] && actions[0] == a
    case Go(action, _) => action == a
  }

  /** What is carried into each stage, `into`, is what the stage before it hands over. */
  ghost predicate Handing(turn: Turn, n: nat, into: nat -> Carried) {
    forall i: nat :: i + 1 < n && turn(i, into(i)).Go? ==> turn(i, into(i)).carried == into(i + 1)
  }

  /** The action at place `j` is the one stage `j` takes with what was carried into it. */
  lemma {:induction false} ActionAt(turn: Turn, n: nat, into: nat -> Carried, i: nat, j: nat, a: Action)
    requires i <= j < n && EndsWell(turn, n) && Handing(turn, n, into) && !a.Failed?
    requires var done := RunFrom(turn, n, i, into(i)); j - i < |done| && done[j - i] == a
    ensures Does(turn(j, into(j)), a)
    decreases j - i
  {
    assert EndShape(turn(i, into(i)), i, n);
    if i < j {
      ActionAt(turn, n, into, i + 1, j, a);
    }
  }

  lemma TurnsHand(w: World, parts: seq<string>, id: string, origin: string, into: nat -> Carried)
    requires forall k: nat :: into(k) == if k <= |parts| then CarriedInto(w, parts, k) else NONE_CARRIED
    ensures Handing(Turns(w, parts, id, origin), |parts|, into)
  {
    forall i: nat | i + 1 < |parts|
      ensures var r := Turns(w, parts, id, origin)(i, into(i)); r.Go? ==> r.carried == into(i + 1)
    {
      StageCarries(w, parts, i, id, origin);
    }
  }

  /** The elements of `more` that are not in `flags`, in order. */
  function Missing(flags: seq<string>, more: seq<string>): seq<string> {
    if more == [] then []
    else
      var last := more[|more| - 1];
      Missing(flags, more[..|more| - 1]) + if last in flags then [] else [last]
  }

  lemma {:induction false} AddMissingIsMissing(flags: seq<string>, more: seq<string>)
    requires Distinct(more)
    ensures AddMissing(flags, more) == flags + Missing(flags, more)
    ensures forall f :: f in Missing(flags, more) ==> f in more
    decreases |more|
  {
    if more != [] {
      var n := |more| - 1;
      AddMissingIsMissing(flags, more[..n]);
      assert more == more[..n] + [more[n]];
      assert more[n] !in more[..n];
    }
  }

  /** What a request stage is to send: its own arguments under those carried, less the timeout, its own flags first, and a handle of the pipe's where it has none. */
  ghost predicate SentFrom(sent: Parsed, own: Parsed, c: Carried, handle: string) {
    && sent.command == own.command
    && sent.args.Keys == own.args.Keys + c.args.Keys - {"timeout"}
    && (forall key :: key in sent.args ==> sent.args[key] == if key in c.args then c.args[key] else own.args[key])
    && sent.flags == own.flags + Missing(own.flags, c.flags)
    && sent.handle == if own.handle == "" then handle else own.handle
  }

  /** The limit a stage waits for: the carried timeout argument, else its own, in seconds; "false" for none at all. */
  predicate LimitFrom(timeout: Option<int>, own: Parsed, c: Carried) {
    if "timeout" !in own.args && "timeout" !in c.args then timeout == None
    else
      var given := if "timeout" in c.args then c.args["timeout"] else own.args["timeout"];
      if given == "false" then timeout == Some(0)
      else
        match Atoi(given)
        case None => false
        case Some(seconds) => seconds >= 0 && timeout == Some(Duration(seconds))
  }

  lemma {:induction false} AddMissingFacts(flags: seq<string>, more: seq<string>)
    ensures forall f :: f in AddMissing(flags, more) <==> f in flags || f in more
    decreases |more|
  {
    if more != [] {
      var n := |more| - 1;
      AddMissingFacts(flags, more[..n]);
      assert more == more[..n] + [more[n]];
    }
  }

  lemma PreparedFrom(w: World, stage: nat, own: Parsed, c: Carried)
    requires Distinct(c.flags)
    ensures SentFrom(Prepared(w, stage, Merged(own, c)), own, c, PipeHandle(w.handleIndex(stage)))
  {
    AddMissingIsMissing(own.flags, c.flags);
  }

  /**
   Every request goes out with its own arguments overridden by those of all earlier
   responses, without the timeout, with its own flags and then the carried ones; as it
   prints, it is a valid request; it has the limit that the timeout argument gave; and it
   goes with the node's own cast exactly when it is the last stage.
   */
  lemma RequestsSent(w: World, parts: seq<string>, id: string, origin: string, j: nat)
    requires j < |Run(w, parts, id, origin)| && Run(w, parts, id, origin)[j].Requested?
    ensures var a := Run(w, parts, id, origin)[j];
            && j < |parts| && a.stage == j && IsRequest(parts[j]) && w.parse(Trim(parts[j])).Some?
            && SentFrom(a.sent, w.parse(Trim(parts[j])).value, CarriedInto(w, parts, j), PipeHandle(w.handleIndex(j)))
            && a.raw == w.stringify(j, a.sent) && w.handleOf(a.raw).Some?
            && LimitFrom(a.timeout, w.parse(Trim(parts[j])).value, CarriedInto(w, parts, j))
            && a.cast == if j + 1 == |parts| then id else DelegatedCast(PIPE_ID, origin)
  {
    AtMostOneError(w, parts, id, origin);
    TurnsEndWell(w, parts, id, origin);
    var a, c := Run(w, parts, id, origin)[j], CarriedInto(w, parts, j);
    var into := (k: nat) => if k <= |parts| then CarriedInto(w, parts, k) else NONE_CARRIED;
    TurnsHand(w, parts, id, origin, into);
    ActionAt(Turns(w, parts, id, origin), |parts|, into, 0, j, a);
    StageRequest(w, j, parts[j], j + 1 == |parts|, id, origin, c, a);
    CarriedFlags(w, parts, j, "");
    PreparedFrom(w, j, w.parse(Trim(parts[j])).value, c);
  }

  lemma StageRequest(w: World, i: nat, segment: string, last: bool, id: string, origin: string, c: Carried, a: Action)
    requires a.Requested? && Does(Stage(w, i, segment, last, id, origin, c), a)
    ensures var raw := Trim(segment);
            && w.parse(raw).Some? && IsRequest(segment)
            && a.sent == Prepared(w, i, Merged(w.parse(raw).value, c))
            && a.raw == w.stringify(i, a.sent) && w.handleOf(a.raw).Some?
            && TimeoutOf(Merged(w.parse(raw).value, c).args) == Some(a.timeout)
            && a.cast == if last then id else DelegatedCast(PIPE_ID, origin)
  {
  }

  /** An intermediate request acts as the pipe for the caller; its identity is read back whole. */
  lemma DelegatedStage(origin: string)
    ensures CastIdentity(DelegatedCast(PIPE_ID, origin)) == Identity(PIPE_ID, origin)
  {
    DelegationReadBack(PIPE_ID, origin);
  }

  /** Stage `j` is the last one before `k` whose response gives the argument. */
  ghost predicate LastGives(w: World, parts: seq<string>, j: int, k: int, key: string) {
    j < k && Gives(w, parts, j, key) && forall l :: j < l < k ==> !Gives(w, parts, l, key)
  }

  /** A carried argument has the value of the latest earlier response that gave it. */
  lemma {:induction false} CarriedArgs(w: World, parts: seq<string>, k: nat, key: string)
    requires k <= |parts|
    ensures var c := CarriedInto(w, parts, k);
            && (key in c.args <==> exists j :: LastGives(w, parts, j, k, key))
            && forall j: nat :: LastGives(w, parts, j, k, key) ==> key in c.args && c.args[key] == w.wait(j).args[key]
    decreases k
  {
    if k > 0 {
      var n := k - 1;
      CarriedArgs(w, parts, n, key);
      forall j
        ensures LastGives(w, parts, j, k, key) <==> if Gives(w, parts, n, key) then j == n else LastGives(w, parts, j, n, key)
      {
        LastGivesNext(w, parts, j, n, key);
      }
      CarriedNext(w, parts, n, key);
      if Gives(w, parts, n, key) {
        assert LastGives(w, parts, n, k, key);
      }
    }
  }

  lemma LastGivesNext(w: World, parts: seq<string>, j: int, n: nat, key: string)
    ensures LastGives(w, parts, j, n + 1, key) <==>
            if Gives(w, parts, n, key) then j == n else LastGives(w, parts, j, n, key)
  {
  }

  lemma CarriedNext(w: World, parts: seq<string>, n: nat, key: string)
    requires n < |parts|
    ensures var before, c := CarriedInto(w, parts, n).args, CarriedInto(w, parts, n + 1).args;
            if Gives(w, parts, n, key) then key in c && c[key] == w.wait(n).args[key]
            else (key in c <==> key in before) && (key in c ==> c[key] == before[key])
  {
  }

  predicate Gives(w: World, parts: seq<string>, j: int, key: string) {
    0 <= j < |parts| && Replies(w, parts, j) && key in w.wait(j).args
  }

  predicate Flags(w: World, parts: seq<string>, j: int, flag: string) {
    0 <= j < |parts| && Replies(w, parts, j) && flag in w.wait(j).flags
  }

  lemma {:induction false} AddMissingDistinct(flags: seq<string>, more: seq<string>)
    requires Distinct(flags)
    ensures Distinct(AddMissing(flags, more))
    decreases |more|
  {
    if more != [] {
      AddMissingDistinct(flags, more[..|more| - 1]);
    }
  }

  /** The carried flags are those of the earlier responses, each once. */
  lemma {:induction false} CarriedFlags(w: World, parts: seq<string>, k: nat, flag: string)
    requires k <= |parts|
    ensures flag in CarriedInto(w, parts, k).flags <==> exists j :: 0 <= j < k && Flags(w, parts, j, flag)
    ensures Distinct(CarriedInto(w, parts, k).flags)
    decreases k
  {
    if k > 0 {
      CarriedFlags(w, parts, k - 1, flag);
      var c := CarriedInto(w, parts, k - 1);
      if Replies(w, parts, k - 1) {
        AddMissingFacts(c.flags, w.wait(k - 1).flags);
        AddMissingDistinct(c.flags, w.wait(k - 1).flags);
      }
      if Flags(w, parts, k - 1, flag) {
      } else if j :| 0 <= j < k && Flags(w, parts, j, flag) {
        assert j < k - 1;
      }
    }
  }

  // With the splitter.

  predicate Nests(a: Action) {
    a.Failed? && a.fault == NestedPipe
  }

  lemma {:induction false} RunNotNested(turn: Turn, n: nat, i: nat, c: Carried)
    requires i <= n
    requires forall k: nat, d :: k < n ==>
               (turn(k, d).Go? ==> !Nests(turn(k, d).action)) &&
               (turn(k, d).Stop? ==> forall a :: a in turn(k, d).actions ==> !Nests(a))
    ensures forall a :: a in RunFrom(turn, n, i, c) ==> !Nests(a)
    decreases n - i
  {
    if i < n && turn(i, c).Go? {
      RunNotNested(turn, n, i + 1, turn(i, c).carried);
    }
  }

  /** A run over the stages of a split message never meets a pipe within a pipe. */
  lemma NeverNested(w: World, raw: string, id: string, origin: string)
    ensures forall a :: a in Run(w, PipeSplit.Split(raw), id, origin) ==> !Nests(a)
  {
    var parts := PipeSplit.Split(raw);
    var turn := Turns(w, parts, id, origin);
    forall k: nat, d | k < |parts|
      ensures turn(k, d).Go? ==> !Nests(turn(k, d).action)
      ensures turn(k, d).Stop? ==> forall a :: a in turn(k, d).actions ==> !Nests(a)
    {
      PipeLaws.StagesAreTrimmedAndUncut(raw, k);
      PipeLaws.SplitIdempotent(raw, k);
      TrimFixed(parts[k]);
      StageNotNested(w, k, parts[k], k + 1 == |parts|, id, origin, d);
    }
    RunNotNested(turn, |parts|, 0, NONE_CARRIED);
  }

  lemma StageNotNested(w: World, i: nat, segment: string, last: bool, id: string, origin: string, c: Carried)
    requires Trim(segment) == segment && !PipeSplit.IsPipe(segment)
    ensures match Stage(w, i, segment, last, id, origin, c)
            case Stop(actions) => forall a :: a in actions ==> !Nests(a)
            case Go(action, _) => !Nests(action)
  {
  }

  // The time limit.

  /** A limit given in seconds is kept exactly while its nanoseconds fit 64 bits. */
  lemma DurationExact(seconds: int)
    requires 0 <= seconds <= MAX_INT
    ensures Duration(seconds) == seconds * NANOS <==> seconds <= 9_223_372_036
  {
  }

  /** One second more, and the limit comes out negative. */
  lemma DurationWraps()
    ensures Duration(9_223_372_037) == -9_223_372_036_709_551_616
  {
  }
}
