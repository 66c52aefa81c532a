/** Running the stages of a pipe (spored/internal/bus/pipe.go). */
module Stages {
  import opened Text
  import opened Wrappers
  import opened Casts
  import opened Numbers
  import PipeSplit

  datatype Parsed = Parsed(command: string, args: map<string, string>, flags: seq<string>, handle: string)

  /** How waiting for a stage's response ends. */
  datatype Wait =
    | TimedOut
    | ErrorReply
    | Unpipeable
    | Reply(args: map<string, string>, flags: seq<string>)

  /**
   What the run depends on from outside, stage by stage: the C parser; how the changed
   message is printed, its arguments being in no fixed order; whether the printed text is
   a valid broadcast or request; the node's announced topics; the bus; the handle counter.
   */
  datatype World = World(
    parse: string -> Option<Parsed>,
    stringify: (nat, Parsed) -> string,
    topicOf: string -> Option<string>,
    handleOf: string -> Option<string>,
    topics: seq<string>,
    publishes: nat -> bool,
    routes: nat -> bool,
    wait: nat -> Wait,
    handleIndex: nat -> nat
  )

  datatype Fault =
    | EmptySegment | NestedPipe | ResponseInPipe | Unparsed
    | BadPublish | TopicNotAnnounced | PublishFailed
    | BadTimeout | BadRequest | Unrouted | NoReplyInTime | ReplyIsError | ReplyUnpipeable

  /** What the run does, in order. `Failed` is the error the calling node receives. */
  datatype Action =
    | Witnessed(stage: nat, body: string)
    | Published(stage: nat, sent: Parsed, raw: string)
    | Requested(stage: nat, sent: Parsed, raw: string, cast: string, timeout: Option<int>)
    | Failed(stage: nat, fault: Fault)

  const PIPE_ID := "SPORE.pipe"

  /** A handle of the pipe's own, from a counter. */
  function PipeHandle(index: nat): string {
    "spore_pipe_" + Sprint(index)
  }

  /** Different counts give different handles. */
  lemma PipeHandleUnique(i: nat, j: nat)
    requires PipeHandle(i) == PipeHandle(j)
    ensures i == j
  {
    var n := |"spore_pipe_"|;
    assert PipeHandle(i)[n..] == Sprint(i) && PipeHandle(j)[n..] == Sprint(j);
    SprintValue(i);
    SprintValue(j);
  }

  // The timeout argument.

  const NANOS: int := 1_000_000_000

  /** Seconds as a Go duration: nanoseconds in 64 bits, wrapping around. */
  function Duration(seconds: int): int {
    (seconds * NANOS + MAX_INT + 1) % (2 * (MAX_INT + 1)) - MAX_INT - 1
  }

  /** The stage's own time limit, if it sets one; no value for an invalid argument. */
  function TimeoutOf(args: map<string, string>): Option<Option<int>> {
    if "timeout" !in args then Some(None)
    else if args["timeout"] == "false" then Some(Some(0))
    else
      match Atoi(args["timeout"])
      case None => None
      case Some(seconds) => if seconds < 0 then None else Some(Some(Duration(seconds)))
  }

  // One stage.

  function AddMissing(flags: seq<string>, more: seq<string>): seq<string> {
    if more == [] then flags
    else
      var some := AddMissing(flags, more[..|more| - 1]);
      if more[|more| - 1] in some then some else some + [more[|more| - 1]]
  }

  /** What the responses so far hand on to later stages. */
  datatype Carried = Carried(args: map<string, string>, flags: seq<string>)

  const NONE_CARRIED := Carried(map[], [])

  function Carry(c: Carried, args: map<string, string>, flags: seq<string>): Carried {
    Carried(c.args + args, AddMissing(c.flags, flags))
  }

  predicate IsWitness(raw: string) {
    HasPrefix(raw, "witness")
  }

  predicate IsPublish(raw: string) {
    HasPrefix(raw, "publish")
  }

  datatype StageEnd = Stop(actions: seq<Action>) | Go(action: Action, carried: Carried)

  function StopWith(stage: nat, fault: Fault): StageEnd {
    Stop([Failed(stage, fault)])
  }

  function CheckSegment(raw: string): Option<Fault> {
    if raw == "" then Some(EmptySegment)
    else if PipeSplit.IsPipe(raw) then Some(NestedPipe)
    else if HasPrefix(raw, "~") then Some(ResponseInPipe)
    else None
  }

  function Merged(pm: Parsed, c: Carried): Parsed {
    pm.(args := pm.args + c.args, flags := AddMissing(pm.flags, c.flags))
  }

  function PublishStage(w: World, stage: nat, pm: Parsed, c: Carried): StageEnd {
    var raw := w.stringify(stage, pm);
    match w.topicOf(raw)
    case None => StopWith(stage, BadPublish)
    case Some(topic) =>
      if topic !in w.topics then StopWith(stage, TopicNotAnnounced)
      else if !w.publishes(stage) then StopWith(stage, PublishFailed)
      else Go(Published(stage, pm, raw), c)
  }

  /** The request a stage sends: without its timeout, and with a handle of its own if it came without one. */
  function Prepared(w: World, stage: nat, pm: Parsed): Parsed {
    pm.(args := pm.args - {"timeout"}, handle := if pm.handle == "" then PipeHandle(w.handleIndex(stage)) else pm.handle)
  }

  function RequestStage(w: World, stage: nat, pm: Parsed, last: bool, id: string, origin: string, c: Carried): StageEnd {
    match TimeoutOf(pm.args)
    case None => StopWith(stage, BadTimeout)
    case Some(timeout) =>
      var sent := Prepared(w, stage, pm);
      var raw := w.stringify(stage, sent);
      if w.handleOf(raw).None? then StopWith(stage, BadRequest)
      else
        var cast := if last then id else DelegatedCast(PIPE_ID, origin);
        var request := Requested(stage, sent, raw, cast, timeout);
        if !w.routes(stage) then Stop([request, Failed(stage, Unrouted)])
        else if last then Stop([request])
        else
          match w.wait(stage)
          case TimedOut => Stop([request, Failed(stage, NoReplyInTime)])
          case ErrorReply => Stop([request, Failed(stage, ReplyIsError)])
          case Unpipeable => Stop([request, Failed(stage, ReplyUnpipeable)])
          case Reply(args, flags) => Go(request, Carry(c, args, flags))
  }

  function Stage(w: World, stage: nat, segment: string, last: bool, id: string, origin: string, c: Carried): StageEnd {
    var raw := Trim(segment);
    match CheckSegment(raw)
    case Some(fault) => StopWith(stage, fault)
    case None =>
      match w.parse(raw)
      case None => StopWith(stage, Unparsed)
      case Some(own) =>
        var pm := Merged(own, c);
        if IsWitness(raw) then
          Go(Witnessed(stage, if "body" in pm.args then pm.args["body"] else ""), c)
        else if IsPublish(raw) then PublishStage(w, stage, pm, c)
        else RequestStage(w, stage, pm, last, id, origin, c)
  }

  /** A stage of the message, given what is carried into it. */
  type Turn = (nat, Carried) -> StageEnd

  function Turns(w: World, parts: seq<string>, id: string, origin: string): Turn {
    (i: nat, c: Carried) =>
      if i < |parts| then Stage(w, i, parts[i], i + 1 == |parts|, id, origin, c) else Stop([])
  }

  /** The actions from stage `i` of `n` on: each stage that goes on hands over to the next. */
  function RunFrom(turn: Turn, n: nat, i: nat, c: Carried): seq<Action>
    requires i <= n
    decreases n - i
  {
    if i == n then []
    else
      match turn(i, c)
      case Stop(actions) => actions
      case Go(action, c') => [action] + RunFrom(turn, n, i + 1, c')
  }

  /** What a pipe message with these segments does. */
  function Run(w: World, parts: seq<string>, id: string, origin: string): seq<Action> {
    RunFrom(Turns(w, parts, id, origin), |parts|, 0, NONE_CARRIED)
  }

  /** Joins the response's flags to those carried, leaving out the ones already there. */
  method MergeFlags(flags: seq<string>, more: seq<string>) returns (r: seq<string>)
    ensures r == AddMissing(flags, more)
  {
    r := flags;
    for i := 0 to |more|
      invariant r == AddMissing(flags, more[..i])
    {
      assert more[..i + 1][..i] == more[..i];
      if more[i] !in r {
        r := r + [more[i]];
      }
    }
    assert more[..|more|] == more;
  }

  method HandleTimeout(args: map<string, string>) returns (timeout: Option<int>, rest: map<string, string>, ok: bool)
    ensures ok <==> TimeoutOf(args).Some?
    ensures ok ==> TimeoutOf(args) == Some(timeout)
    ensures rest == args - {"timeout"}
  {
    rest := args - {"timeout"};
    if "timeout" !in args {
      return None, rest, true;
    }
    var raw := args["timeout"];
    if raw == "false" {
      return Some(0), rest, true;
    }
    var seconds := Atoi(raw);
    if seconds.None? || seconds.value < 0 {
      return None, rest, false;
    }
    return Some(Duration(seconds.value)), rest, true;
  }

  /** What was done so far and what is still to do from stage `i` on make up the run. */
  ghost predicate UnderWay(w: World, parts: seq<string>, id: string, origin: string, done: seq<Action>, i: nat, c: Carried) {
    && i <= |parts|
    && done + RunFrom(Turns(w, parts, id, origin), |parts|, i, c) == Run(w, parts, id, origin)
  }

  lemma RunBegins(w: World, parts: seq<string>, id: string, origin: string)
    ensures UnderWay(w, parts, id, origin, [], 0, NONE_CARRIED)
  {
  }

  lemma RunEnds(w: World, parts: seq<string>, id: string, origin: string, done: seq<Action>, i: nat, c: Carried)
    requires UnderWay(w, parts, id, origin, done, i, c) && i == |parts|
    ensures done == Run(w, parts, id, origin)
  {
    assert done + [] == done;
  }

  lemma RunTurn(w: World, parts: seq<string>, id: string, origin: string, done: seq<Action>, i: nat, c: Carried)
    requires UnderWay(w, parts, id, origin, done, i, c) && i < |parts|
    ensures match Stage(w, i, parts[i], i + 1 == |parts|, id, origin, c)
            case Stop(actions) => done + actions == Run(w, parts, id, origin)
            case Go(action, c') => UnderWay(w, parts, id, origin, done + [action], i + 1, c')
  {
    var turn := Turns(w, parts, id, origin);
    assert turn(i, c) == Stage(w, i, parts[i], i + 1 == |parts|, id, origin, c);
    match turn(i, c) {
      case Stop(_) =>
      case Go(action, c') => OneMore(done, action, RunFrom(turn, |parts|, i + 1, c'));
    }
  }

  lemma OneMore(done: seq<Action>, action: Action, rest: seq<Action>)
    ensures done + ([action] + rest) == (done + [action]) + rest
  {
  }

  /** The stage loop, asking the message for one stage after the other. */
  method Pipe(w: World, msg: PipeSplit.PipeMessage, id: string, origin: string) returns (done: seq<Action>)
    requires |msg.parts| < MAX_INT
    ensures done == Run(w, msg.parts, id, origin)
  {
    done := [];
    var args: map<string, string>, flags: seq<string> := map[], [];
    var index: nat := 0;
    RunBegins(w, msg.parts, id, origin);
    while true
      invariant UnderWay(w, msg.parts, id, origin, done, index, Carried(args, flags))
      decreases |msg.parts| - index
    {
      PipeSplit.ArgOfIndex(msg, index);
      var arg := msg.Arg(Sprint(index));
      if !arg.Value? {
        RunEnds(w, msg.parts, id, origin, done, index, Carried(args, flags));
        return;
      }
      RunTurn(w, msg.parts, id, origin, done, index, Carried(args, flags));
      // The stage after this one is only asked for to see whether there is one.
      PipeSplit.ArgOfIndex(msg, index + 1);
      var last := !msg.Arg(Sprint(index + 1)).Value?;
      var r := RunStage(w, index, arg.text, last, id, origin, args, flags);
      match r {
        case Stop(actions) =>
          return done + actions;
        case Go(action, carried) =>
          done := done + [action];
          args, flags := carried.args, carried.flags;
      }
      index := index + 1;
    }
  }

  /** One turn of the stage loop. */
  method RunStage(w: World, index: nat, segment: string, last: bool, id: string, origin: string,
                  args: map<string, string>, flags: seq<string>) returns (r: StageEnd)
    ensures r == Stage(w, index, segment, last, id, origin, Carried(args, flags))
  {
    var raw := Trim(segment);
    if raw == "" {
      return StopWith(index, EmptySegment);
    } else if PipeSplit.IsPipe(raw) {
      return StopWith(index, NestedPipe);
    } else if HasPrefix(raw, "~") {
      return StopWith(index, ResponseInPipe);
    }
    var parsed := w.parse(raw);
    if parsed.None? {
      return StopWith(index, Unparsed);
    }
    var pm := parsed.value;
    var allFlags := MergeFlags(pm.flags, flags);
    pm := pm.(args := pm.args + args, flags := allFlags);
    if HasPrefix(raw, "witness") {
      return Go(Witnessed(index, if "body" in pm.args then pm.args["body"] else ""), Carried(args, flags));
    } else if HasPrefix(raw, "publish") {
      r := PublishStage(w, index, pm, Carried(args, flags));
      return;
    }
    var timeout, ownArgs, ok := HandleTimeout(pm.args);
    if !ok {
      return StopWith(index, BadTimeout);
    }
    pm := pm.(args := ownArgs);
    if pm.handle == "" {
      pm := pm.(handle := PipeHandle(w.handleIndex(index)));
    }
    var cast := id;
    if !last {
      cast := DelegatedCast(PIPE_ID, origin);
    }
    var printed := w.stringify(index, pm);
    if w.handleOf(printed).None? {
      return StopWith(index, BadRequest);
    }
    var request := Requested(index, pm, printed, cast, timeout);
    if !w.routes(index) {
      return Stop([request, Failed(index, Unrouted)]);
    }
    if last {
      return Stop([request]);
    }
    match w.wait(index) {
      case TimedOut => return Stop([request, Failed(index, NoReplyInTime)]);
      case ErrorReply => return Stop([request, Failed(index, ReplyIsError)]);
      case Unpipeable => return Stop([request, Failed(index, ReplyUnpipeable)]);
      case Reply(replyArgs, replyFlags) =>
        var newFlags := MergeFlags(flags, replyFlags);
        return Go(request, Carried(args + replyArgs, newFlags));
    }
  }
}
