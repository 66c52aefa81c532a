/**
 Exactly what the run of a pipe does, from what comes from outside and the segments alone:
 which stages act and how, which one stops the run, and with what error
 (spored/internal/bus/pipe.go).
 */
module StageRuns {
  import opened Text
  import opened Wrappers
  import opened Casts
  import opened Numbers
  import opened Stages
  import opened StageLaws
  import PipeSplit

  // What a stage is, and what it works with.

  predicate Readable(raw: string) {
    raw != "" && raw[0] != '~' && !PipeSplit.IsPipe(raw)
  }

  predicate Parses(w: World, raw: string) {
    Readable(raw) && w.parse(raw).Some?
  }

  predicate Witnesses(raw: string) {
    "witness" <= raw
  }

  predicate Publishes(raw: string) {
    "publish" <= raw
  }

  /** The stage's message, overridden by the responses before it. */
  function Combined(own: Parsed, c: Carried): Parsed {
    Parsed(own.command, own.args + c.args, own.flags + Missing(own.flags, c.flags), own.handle)
  }

  function MessageAt(w: World, parts: seq<string>, k: nat): Parsed
    requires k < |parts| && Parses(w, Trim(parts[k]))
  {
    Combined(w.parse(Trim(parts[k])).value, CarriedInto(w, parts, k))
  }

  predicate BadLimit(args: map<string, string>) {
    && "timeout" in args && args["timeout"] != "false"
    && match Atoi(args["timeout"])
       case None => true
       case Some(seconds) => seconds < 0
  }

  function LimitOf(args: map<string, string>): Option<int>
    requires !BadLimit(args)
  {
    if "timeout" !in args then None
    else if args["timeout"] == "false" then Some(0)
    else Some(Duration(Atoi(args["timeout"]).value))
  }

  /** The request stage `k` sends, with a handle of the pipe's where it has none. */
  function RequestAt(w: World, parts: seq<string>, k: nat): Parsed
    requires k < |parts| && Parses(w, Trim(parts[k]))
  {
    var m := MessageAt(w, parts, k);
    Parsed(m.command, m.args - {"timeout"}, m.flags,
           if m.handle == "" then "spore_pipe_" + Sprint(w.handleIndex(k)) else m.handle)
  }

  predicate IsRequestAt(w: World, parts: seq<string>, k: nat)
    requires k < |parts|
  {
    Parses(w, Trim(parts[k])) && !Witnesses(Trim(parts[k])) && !Publishes(Trim(parts[k]))
  }

  /** Stage `k` gets to send a request: its limit is valid and its printed text is a request. */
  predicate Sends(w: World, parts: seq<string>, k: nat)
    requires k < |parts|
  {
    && IsRequestAt(w, parts, k) && !BadLimit(MessageAt(w, parts, k).args)
    && w.handleOf(w.stringify(k, RequestAt(w, parts, k))).Some?
  }

  /** Stage `k` publishes on a topic its node announced, and the bus takes it. */
  predicate PublishesAt(w: World, parts: seq<string>, k: nat)
    requires k < |parts|
  {
    && Parses(w, Trim(parts[k])) && Publishes(Trim(parts[k]))
    && var topic := w.topicOf(w.stringify(k, MessageAt(w, parts, k)));
       topic.Some? && topic.value in w.topics && w.publishes(k)
  }

  /** Stage `k` does its part and leaves the run going. */
  predicate GoesOn(w: World, parts: seq<string>, k: nat)
    requires k < |parts|
  {
    || (Parses(w, Trim(parts[k])) && Witnesses(Trim(parts[k])))
    || PublishesAt(w, parts, k)
    || (Sends(w, parts, k) && w.routes(k) && (k + 1 == |parts| || w.wait(k).Reply?))
  }

  /** Stage `k` stops the run with this error. */
  predicate FailsWith(w: World, parts: seq<string>, k: nat, fault: Fault)
    requires k < |parts|
  {
    var raw := Trim(parts[k]);
    match fault
    case EmptySegment => raw == ""
    case NestedPipe => raw != "" && PipeSplit.IsPipe(raw)
    case ResponseInPipe => raw != "" && !PipeSplit.IsPipe(raw) && raw[0] == '~'
    case Unparsed => Readable(raw) && w.parse(raw).None?
    case BadPublish =>
      Parses(w, raw) && Publishes(raw) && w.topicOf(w.stringify(k, MessageAt(w, parts, k))).None?
    case TopicNotAnnounced =>
      && Parses(w, raw) && Publishes(raw)
      && var topic := w.topicOf(w.stringify(k, MessageAt(w, parts, k)));
         topic.Some? && topic.value !in w.topics
    case PublishFailed =>
      && Parses(w, raw) && Publishes(raw)
      && var topic := w.topicOf(w.stringify(k, MessageAt(w, parts, k)));
         topic.Some? && topic.value in w.topics && !w.publishes(k)
    case BadTimeout => IsRequestAt(w, parts, k) && BadLimit(MessageAt(w, parts, k).args)
    case BadRequest =>
      && IsRequestAt(w, parts, k) && !BadLimit(MessageAt(w, parts, k).args)
      && w.handleOf(w.stringify(k, RequestAt(w, parts, k))).None?
    case Unrouted => Sends(w, parts, k) && !w.routes(k)
    case NoReplyInTime => Sends(w, parts, k) && w.routes(k) && k + 1 < |parts| && w.wait(k) == TimedOut
    case ReplyIsError => Sends(w, parts, k) && w.routes(k) && k + 1 < |parts| && w.wait(k) == ErrorReply
    case ReplyUnpipeable => Sends(w, parts, k) && w.routes(k) && k + 1 < |parts| && w.wait(k) == Unpipeable
  }

  /** What stage `k` does if it gets to: log its body, publish, or send its request. */
  function ActionOf(w: World, parts: seq<string>, id: string, origin: string, k: nat): Action
    requires k < |parts| && (GoesOn(w, parts, k) || Sends(w, parts, k))
  {
    var raw := Trim(parts[k]);
    if Witnesses(raw) then
      var args := MessageAt(w, parts, k).args;
      Witnessed(k, if "body" in args then args["body"] else "")
    else if Publishes(raw) then
      Published(k, MessageAt(w, parts, k), w.stringify(k, MessageAt(w, parts, k)))
    else
      var sent := RequestAt(w, parts, k);
      Requested(k, sent, w.stringify(k, sent), if k + 1 == |parts| then id else DelegatedCast("SPORE.pipe", origin),
                LimitOf(MessageAt(w, parts, k).args))
  }

  // One stage.

  lemma Prefixes(raw: string)
    ensures IsWitness(raw) <==> Witnesses(raw)
    ensures IsPublish(raw) <==> Publishes(raw)
    ensures Witnesses(raw) ==> !Publishes(raw)
    ensures raw != "" ==> (HasPrefix(raw, "~") <==> raw[0] == '~')
  {
    if raw != "" {
      assert raw[..1] == [raw[0]];
    }
    assert "witness"[0] != "publish"[0];
  }

  lemma MergedIsCombined(w: World, parts: seq<string>, k: nat)
    requires k < |parts| && Parses(w, Trim(parts[k]))
    ensures Merged(w.parse(Trim(parts[k])).value, CarriedInto(w, parts, k)) == MessageAt(w, parts, k)
  {
    CarriedFlags(w, parts, k, "");
    AddMissingIsMissing(w.parse(Trim(parts[k])).value.flags, CarriedInto(w, parts, k).flags);
  }

  lemma LimitChecked(args: map<string, string>)
    ensures TimeoutOf(args) == if BadLimit(args) then None else Some(LimitOf(args))
  {
  }

  /** How stage `k` is to end. */
  ghost predicate EndsRight(w: World, parts: seq<string>, id: string, origin: string, k: nat, r: StageEnd)
    requires k < |parts|
  {
    if GoesOn(w, parts, k) then
      var a := ActionOf(w, parts, id, origin, k);
      match r
      case Go(action, c) => action == a && (k + 1 < |parts| ==> c == CarriedInto(w, parts, k + 1))
      case Stop(actions) => k + 1 == |parts| && actions == [a]
    else
      exists fault :: FailsWith(w, parts, k, fault) && r == Stop(Sent(w, parts, id, origin, k) + [Failed(k, fault)])
  }

  /** The request a stage that fails has sent before. */
  function Sent(w: World, parts: seq<string>, id: string, origin: string, k: nat): seq<Action>
    requires k < |parts|
  {
    if Sends(w, parts, k) then [ActionOf(w, parts, id, origin, k)] else []
  }

  lemma PreparedIs(w: World, parts: seq<string>, k: nat)
    requires k < |parts| && Parses(w, Trim(parts[k]))
    ensures Prepared(w, k, MessageAt(w, parts, k)) == RequestAt(w, parts, k)
  {
  }

  /** A request stage that does not get to send. */
  lemma UnsentStops(w: World, parts: seq<string>, id: string, origin: string, k: nat)
    requires k < |parts| && IsRequestAt(w, parts, k) && !Sends(w, parts, k)
    ensures RequestStage(w, k, MessageAt(w, parts, k), k + 1 == |parts|, id, origin, CarriedInto(w, parts, k)) ==
            Stop([Failed(k, if BadLimit(MessageAt(w, parts, k).args) then BadTimeout else BadRequest)])
  {
    LimitChecked(MessageAt(w, parts, k).args);
    PreparedIs(w, parts, k);
  }

  /** A request stage that sends. */
  lemma SentThen(w: World, parts: seq<string>, id: string, origin: string, k: nat)
    requires k < |parts| && Sends(w, parts, k)
    ensures var a, c := ActionOf(w, parts, id, origin, k), CarriedInto(w, parts, k);
            RequestStage(w, k, MessageAt(w, parts, k), k + 1 == |parts|, id, origin, c) ==
            if !w.routes(k) then Stop([a] + [Failed(k, Unrouted)])
            else if k + 1 == |parts| then Stop([a])
            else
              match w.wait(k)
              case TimedOut => Stop([a] + [Failed(k, NoReplyInTime)])
              case ErrorReply => Stop([a] + [Failed(k, ReplyIsError)])
              case Unpipeable => Stop([a] + [Failed(k, ReplyUnpipeable)])
              case Reply(args, flags) => Go(a, Carry(c, args, flags))
  {
    LimitChecked(MessageAt(w, parts, k).args);
    PreparedIs(w, parts, k);
    Pairs(ActionOf(w, parts, id, origin, k), k);
  }

  lemma Pairs(a: Action, k: nat)
    ensures forall f :: [a, Failed(k, f)] == [a] + [Failed(k, f)]
  {
  }

  lemma RequestEnds(w: World, parts: seq<string>, id: string, origin: string, k: nat)
    requires k < |parts| && IsRequestAt(w, parts, k)
    ensures EndsRight(w, parts, id, origin, k,
                      RequestStage(w, k, MessageAt(w, parts, k), k + 1 == |parts|, id, origin, CarriedInto(w, parts, k)))
  {
    var r := RequestStage(w, k, MessageAt(w, parts, k), k + 1 == |parts|, id, origin, CarriedInto(w, parts, k));
    if !Sends(w, parts, k) {
      UnsentStops(w, parts, id, origin, k);
      var fault := if BadLimit(MessageAt(w, parts, k).args) then BadTimeout else BadRequest;
      assert [] + [Failed(k, fault)] == [Failed(k, fault)];
      Faulty(w, parts, id, origin, k, r, fault);
    } else {
      SentThen(w, parts, id, origin, k);
      if !w.routes(k) {
        Faulty(w, parts, id, origin, k, r, Unrouted);
      } else if k + 1 < |parts| {
        if w.wait(k).Reply? {
          RequestCarries(w, parts, k);
        } else {
          Faulty(w, parts, id, origin, k, r,
                 if w.wait(k).TimedOut? then NoReplyInTime
                 else if w.wait(k).ErrorReply? then ReplyIsError else ReplyUnpipeable);
        }
      }
    }
  }

  lemma RequestCarries(w: World, parts: seq<string>, k: nat)
    requires k < |parts| && IsRequestAt(w, parts, k) && w.wait(k).Reply?
    ensures CarriedInto(w, parts, k + 1) == Carry(CarriedInto(w, parts, k), w.wait(k).args, w.wait(k).flags)
  {
    Prefixes(Trim(parts[k]));
  }

  lemma OtherCarries(w: World, parts: seq<string>, k: nat)
    requires k < |parts| && (Witnesses(Trim(parts[k])) || Publishes(Trim(parts[k])))
    ensures CarriedInto(w, parts, k + 1) == CarriedInto(w, parts, k)
  {
    Prefixes(Trim(parts[k]));
  }

  lemma Faulty(w: World, parts: seq<string>, id: string, origin: string, k: nat, r: StageEnd, fault: Fault)
    requires k < |parts| && FailsWith(w, parts, k, fault) && !GoesOn(w, parts, k)
    requires r == Stop(Sent(w, parts, id, origin, k) + [Failed(k, fault)])
    ensures EndsRight(w, parts, id, origin, k, r)
  {
  }

  lemma PublishEnds(w: World, parts: seq<string>, id: string, origin: string, k: nat)
    requires k < |parts| && Parses(w, Trim(parts[k])) && Publishes(Trim(parts[k]))
    ensures EndsRight(w, parts, id, origin, k, PublishStage(w, k, MessageAt(w, parts, k), CarriedInto(w, parts, k)))
  {
    var m := MessageAt(w, parts, k);
    var r := PublishStage(w, k, m, CarriedInto(w, parts, k));
    Prefixes(Trim(parts[k]));
    OtherCarries(w, parts, k);
    var topic := w.topicOf(w.stringify(k, m));
    if topic.None? {
      Faulty(w, parts, id, origin, k, r, BadPublish);
    } else if topic.value !in w.topics {
      Faulty(w, parts, id, origin, k, r, TopicNotAnnounced);
    } else if !w.publishes(k) {
      Faulty(w, parts, id, origin, k, r, PublishFailed);
    }
  }

  lemma UnreadableStops(w: World, k: nat, segment: string, last: bool, id: string, origin: string, c: Carried)
    requires !Parses(w, Trim(segment))
    ensures var raw := Trim(segment);
            Stage(w, k, segment, last, id, origin, c) ==
            Stop([Failed(k, if raw == "" then EmptySegment
                            else if PipeSplit.IsPipe(raw) then NestedPipe
                            else if raw[0] == '~' then ResponseInPipe
                            else Unparsed)])
  {
    Prefixes(Trim(segment));
  }

  lemma UnreadableEnds(w: World, parts: seq<string>, id: string, origin: string, k: nat)
    requires k < |parts| && !Parses(w, Trim(parts[k]))
    ensures EndsRight(w, parts, id, origin, k,
                      Stage(w, k, parts[k], k + 1 == |parts|, id, origin, CarriedInto(w, parts, k)))
  {
    var raw := Trim(parts[k]);
    UnreadableStops(w, k, parts[k], k + 1 == |parts|, id, origin, CarriedInto(w, parts, k));
    assert !GoesOn(w, parts, k) && Sent(w, parts, id, origin, k) == [];
    var fault := if raw == "" then EmptySegment
                 else if PipeSplit.IsPipe(raw) then NestedPipe
                 else if raw[0] == '~' then ResponseInPipe
                 else Unparsed;
    assert FailsWith(w, parts, k, fault);
    assert [] + [Failed(k, fault)] == [Failed(k, fault)];
  }

  lemma StageEnds(w: World, parts: seq<string>, id: string, origin: string, k: nat)
    requires k < |parts|
    ensures EndsRight(w, parts, id, origin, k,
                      Stage(w, k, parts[k], k + 1 == |parts|, id, origin, CarriedInto(w, parts, k)))
  {
    var raw := Trim(parts[k]);
    Prefixes(raw);
    if !Parses(w, raw) {
      UnreadableEnds(w, parts, id, origin, k);
    } else {
      MergedIsCombined(w, parts, k);
      if Witnesses(raw) {
        OtherCarries(w, parts, k);
      } else if Publishes(raw) {
        PublishEnds(w, parts, id, origin, k);
      } else {
        RequestEnds(w, parts, id, origin, k);
      }
    }
  }

  /** A stage goes on, or one error and no other is its own. */
  lemma OneFault(w: World, parts: seq<string>, k: nat)
    requires k < |parts|
    ensures GoesOn(w, parts, k) <==> forall f :: !FailsWith(w, parts, k, f)
    ensures forall f, g :: FailsWith(w, parts, k, f) && FailsWith(w, parts, k, g) ==> f == g
  {
    StageEnds(w, parts, "", "", k);
    forall f | FailsWith(w, parts, k, f)
      ensures !GoesOn(w, parts, k)
    {
      NotBoth(w, parts, k, f);
    }
    forall f, g | FailsWith(w, parts, k, f) && FailsWith(w, parts, k, g)
      ensures f == g
    {
      SameFault(w, parts, k, f, g);
    }
  }

  lemma NotBoth(w: World, parts: seq<string>, k: nat, f: Fault)
    requires k < |parts| && FailsWith(w, parts, k, f)
    ensures !GoesOn(w, parts, k)
  {
    Prefixes(Trim(parts[k]));
  }

  lemma SameFault(w: World, parts: seq<string>, k: nat, f: Fault, g: Fault)
    requires k < |parts| && FailsWith(w, parts, k, f) && FailsWith(w, parts, k, g)
    ensures f == g
  {
  }

  // The run.

  /**
   `done` is what happens from stage `i` on: each stage that goes on acts; the first that does
   not gives the calling node the error its own condition names, after its request if it got
   to send one, and nothing happens after it.
   */
  ghost predicate RunsAs(w: World, parts: seq<string>, id: string, origin: string, i: nat, done: seq<Action>)
    requires i <= |parts|
    decreases |parts| - i
  {
    if i == |parts| then done == []
    else if GoesOn(w, parts, i) then
      && done != [] && done[0] == ActionOf(w, parts, id, origin, i)
      && RunsAs(w, parts, id, origin, i + 1, done[1..])
    else FailsAs(w, parts, id, origin, i, done)
  }

  ghost predicate FailsAs(w: World, parts: seq<string>, id: string, origin: string, i: nat, done: seq<Action>)
    requires i < |parts|
  {
    exists fault :: FailsWith(w, parts, i, fault) && done == Sent(w, parts, id, origin, i) + [Failed(i, fault)]
  }

  lemma FailsHere(w: World, parts: seq<string>, id: string, origin: string, i: nat, r: StageEnd)
    requires i < |parts| && !GoesOn(w, parts, i) && EndsRight(w, parts, id, origin, i, r)
    ensures r.Stop? && RunsAs(w, parts, id, origin, i, r.actions)
  {
  }

  lemma LastActs(w: World, parts: seq<string>, id: string, origin: string, i: nat, r: StageEnd)
    requires i + 1 == |parts| && GoesOn(w, parts, i) && EndsRight(w, parts, id, origin, i, r)
    ensures RunsAs(w, parts, id, origin, i, match r case Stop(actions) => actions case Go(a, _) => [a])
  {
    var a := ActionOf(w, parts, id, origin, i);
    assert [a][1..] == [] && RunsAs(w, parts, id, origin, i + 1, []);
  }

  lemma ActsThen(w: World, parts: seq<string>, id: string, origin: string, i: nat, r: StageEnd, rest: seq<Action>)
    requires i + 1 < |parts| && GoesOn(w, parts, i) && EndsRight(w, parts, id, origin, i, r)
    requires RunsAs(w, parts, id, origin, i + 1, rest)
    ensures r.Go? && r.carried == CarriedInto(w, parts, i + 1)
    ensures RunsAs(w, parts, id, origin, i, [r.action] + rest)
  {
    assert ([r.action] + rest)[1..] == rest;
  }

  /** How stage `i` and what comes behind it make up the run from `i` on. */
  lemma RunFromHere(w: World, parts: seq<string>, id: string, origin: string, i: nat, r: StageEnd, rest: seq<Action>)
    requires i < |parts| && EndsRight(w, parts, id, origin, i, r)
    requires i + 1 < |parts| && GoesOn(w, parts, i) ==> RunsAs(w, parts, id, origin, i + 1, rest)
    ensures r.Go? && i + 1 < |parts| ==> GoesOn(w, parts, i) && r.carried == CarriedInto(w, parts, i + 1)
    ensures RunsAs(w, parts, id, origin, i,
                   match r case Stop(actions) => actions case Go(a, _) => [a] + if i + 1 == |parts| then [] else rest)
  {
    if !GoesOn(w, parts, i) {
      FailsHere(w, parts, id, origin, i, r);
    } else if i + 1 == |parts| {
      LastActs(w, parts, id, origin, i, r);
    } else {
      ActsThen(w, parts, id, origin, i, r, rest);
    }
  }

  /** The run from stage `i` on. */
  function RunTail(w: World, parts: seq<string>, id: string, origin: string, i: nat): seq<Action>
    requires i <= |parts|
  {
    RunFrom(Turns(w, parts, id, origin), |parts|, i, CarriedInto(w, parts, i))
  }

  lemma RunTailHere(w: World, parts: seq<string>, id: string, origin: string, i: nat) returns (r: StageEnd)
    requires i < |parts|
    ensures EndsRight(w, parts, id, origin, i, r)
    ensures match r
            case Stop(actions) => RunTail(w, parts, id, origin, i) == actions
            case Go(a, c') =>
              if i + 1 == |parts| then RunTail(w, parts, id, origin, i) == [a] + []
              else c' == CarriedInto(w, parts, i + 1) ==>
                     RunTail(w, parts, id, origin, i) == [a] + RunTail(w, parts, id, origin, i + 1)
  {
    var c := CarriedInto(w, parts, i);
    r := Stage(w, i, parts[i], i + 1 == |parts|, id, origin, c);
    TurnIs(w, parts, id, origin, i, c);
    StageEnds(w, parts, id, origin, i);
    RunFromTurn(Turns(w, parts, id, origin), |parts|, i, c);
  }

  lemma RunsFromHere(w: World, parts: seq<string>, id: string, origin: string, i: nat)
    requires i < |parts| && RunsAs(w, parts, id, origin, i + 1, RunTail(w, parts, id, origin, i + 1))
    ensures RunsAs(w, parts, id, origin, i, RunTail(w, parts, id, origin, i))
  {
    var r := RunTailHere(w, parts, id, origin, i);
    RunFromHere(w, parts, id, origin, i, r, RunTail(w, parts, id, origin, i + 1));
  }

  lemma RunsFromEnd(w: World, parts: seq<string>, id: string, origin: string)
    ensures RunsAs(w, parts, id, origin, |parts|, RunTail(w, parts, id, origin, |parts|))
  {
  }

  lemma {:induction false} RunFromExact(w: World, parts: seq<string>, id: string, origin: string, i: nat)
    requires i <= |parts|
    ensures RunsAs(w, parts, id, origin, i, RunTail(w, parts, id, origin, i))
    decreases |parts| - i
  {
    if i < |parts| {
      RunFromExact(w, parts, id, origin, i + 1);
      RunsFromHere(w, parts, id, origin, i);
    } else {
      RunsFromEnd(w, parts, id, origin);
    }
  }

  lemma TurnIs(w: World, parts: seq<string>, id: string, origin: string, i: nat, c: Carried)
    requires i < |parts|
    ensures Turns(w, parts, id, origin)(i, c) == Stage(w, i, parts[i], i + 1 == |parts|, id, origin, c)
  {
  }

  lemma RunFromTurn(turn: Turn, n: nat, i: nat, c: Carried)
    requires i < n
    ensures RunFrom(turn, n, i, c) ==
            match turn(i, c)
            case Stop(actions) => actions
            case Go(a, c') => [a] + if i + 1 == n then [] else RunFrom(turn, n, i + 1, c')
  {
  }

  /** The whole run. */
  lemma RunExact(w: World, parts: seq<string>, id: string, origin: string)
    ensures RunsAs(w, parts, id, origin, 0, Run(w, parts, id, origin))
  {
    RunFromExact(w, parts, id, origin, 0);
  }

  /** Only who acts and who fails, by which stages go on and which get to send their request. */
  predicate Outline(goes: seq<bool>, sends: seq<bool>, i: nat, done: seq<Action>)
    requires i <= |goes| == |sends|
    decreases |goes| - i
  {
    if i == |goes| then done == []
    else if goes[i] then done != [] && !done[0].Failed? && Outline(goes, sends, i + 1, done[1..])
    else if sends[i] then |done| == 2 && !done[0].Failed? && done[1].Failed?
    else |done| == 1 && done[0].Failed?
  }

  lemma {:induction false} OutlineAt(goes: seq<bool>, sends: seq<bool>, i: nat, k: nat, done: seq<Action>)
    requires i <= k < |goes| == |sends| && Outline(goes, sends, i, done)
    ensures (k - i < |done| && !done[k - i].Failed?) <==> (forall j :: i <= j < k ==> goes[j]) && (goes[k] || sends[k])
    decreases k - i
  {
    if goes[i] && i < k {
      OutlineAt(goes, sends, i + 1, k, done[1..]);
    }
  }

  function Going(w: World, parts: seq<string>): (bs: seq<bool>)
    ensures |bs| == |parts|
    ensures forall i :: 0 <= i < |parts| ==> bs[i] == GoesOn(w, parts, i)
  {
    seq(|parts|, i requires 0 <= i < |parts| => GoesOn(w, parts, i))
  }

  function Sending(w: World, parts: seq<string>): (bs: seq<bool>)
    ensures |bs| == |parts|
    ensures forall i :: 0 <= i < |parts| ==> bs[i] == Sends(w, parts, i)
  {
    seq(|parts|, i requires 0 <= i < |parts| => Sends(w, parts, i))
  }

  lemma {:induction false} RunOutlined(w: World, parts: seq<string>, id: string, origin: string, i: nat, done: seq<Action>)
    requires i <= |parts| && RunsAs(w, parts, id, origin, i, done)
    ensures Outline(Going(w, parts), Sending(w, parts), i, done)
    decreases |parts| - i
  {
    if i < |parts| {
      RunsHere(w, parts, id, origin, i, done);
      if GoesOn(w, parts, i) {
        RunOutlined(w, parts, id, origin, i + 1, done[1..]);
      }
      OutlineHere(Going(w, parts), Sending(w, parts), i, done);
    }
  }

  /** What the run does at stage `i` itself. */
  lemma RunsHere(w: World, parts: seq<string>, id: string, origin: string, i: nat, done: seq<Action>)
    requires i < |parts| && RunsAs(w, parts, id, origin, i, done)
    ensures if GoesOn(w, parts, i) then
              done != [] && !done[0].Failed? && RunsAs(w, parts, id, origin, i + 1, done[1..])
            else if Sends(w, parts, i) then |done| == 2 && !done[0].Failed? && done[1].Failed?
            else |done| == 1 && done[0].Failed?
  {
  }

  lemma OutlineHere(goes: seq<bool>, sends: seq<bool>, i: nat, done: seq<Action>)
    requires i < |goes| == |sends|
    requires if goes[i] then done != [] && !done[0].Failed? && Outline(goes, sends, i + 1, done[1..])
             else if sends[i] then |done| == 2 && !done[0].Failed? && done[1].Failed?
             else |done| == 1 && done[0].Failed?
    ensures Outline(goes, sends, i, done)
  {
  }

  /** Stage `k` acts exactly when every earlier one goes on and it goes on itself or at least sends its request. */
  lemma ActsAt(w: World, parts: seq<string>, id: string, origin: string, k: nat)
    requires k < |parts|
    ensures var done := Run(w, parts, id, origin);
            (k < |done| && !done[k].Failed?) <==>
            (forall j :: 0 <= j < k ==> Going(w, parts)[j]) && (Going(w, parts)[k] || Sending(w, parts)[k])
  {
    var done := Run(w, parts, id, origin);
    RunExact(w, parts, id, origin);
    RunOutlined(w, parts, id, origin, 0, done);
    OutlineAt(Going(w, parts), Sending(w, parts), 0, k, done);
  }
}
