/** One turn of the agent client: what each wake-up of the read loop does to the
  client and to the loop's own variables.

  The surroundings are a trace of `Poll`s. A poll carries what the loop finds when
  it wakes: up to three readings of the clock, what the agent's stdout has ready,
  the steer request at the head of the channel, and whether a write made while
  handling it would succeed. Nothing in a trace is chosen by the client.
 */
module AcpTurn {
  import opened Wrappers
  import opened JsonValues

  type Time = nat

  datatype SteerTransport = Goose | AcpExtension

  datatype SteerRequest = SteerRequest(blocks: seq<string>)

  datatype WriteError = WriteTimeout | BrokenPipe | Unserializable

  datatype WriteOutcome = Written | Failed(cause: WriteError)

  datatype SteerError =
    | ExpectedRunIdMissing
    | Transport(cause: WriteError)
    | AgentError(code: int, message: Json)
    | OutcomeRejected(reported: Option<Json>)

  datatype SteerAck =
    | Success(sessionId: string)
    | Rejected(error: SteerError)
    | PromptCompletedNeutral

  datatype TurnError =
    | AgentExited
    | LineTooLong
    | ReadFailed
    | IdleTimeout(limit: Time)
    | HardTimeout(silence: Time)
    | CancelDrainTimeout(grace: Time)
    | RequestTimeout
    | AgentReported(code: int, message: Option<string>)
    | Protocol(what: string)
    | WriteFailed(cause: WriteError)

  type Outcome = Result<Json, TurnError>

  datatype Body =
    | PromptTurn(sessionId: string, blocks: seq<string>)
    | GooseSteer(sessionId: string, expectedRunId: string, blocks: seq<string>)
    | AcpSteer(sessionId: string, blocks: seq<string>)
    | Plain(name: string)

  datatype Decision = Selected(optionId: string) | Cancelled

  /** A line written whole to the agent's stdin. */
  datatype Sent =
    | Request(id: nat, body: Body)
    | CancelNotice(sessionId: string)
    | PermissionReply(request: nat, rpcId: Json, decision: Decision)
    | MethodNotFound(rpcId: Json, name: string)

  /** The client's fields. `permissionsAsked` and `sent` are history: the ids of
    the permission requests that arrived, and everything written so far. */
  datatype Client = Client(
    nextId: nat,
    pendingPermission: Option<Json>,
    permissionResponded: bool,
    lastPromptId: Option<nat>,
    currentHardDeadline: Option<Time>,
    activeRunId: Option<string>,
    steeringSupported: bool,
    steerInstalled: bool,
    permissionsAsked: seq<Json>,
    sent: seq<Sent>)

  const Spawned := Client(0, None, false, None, None, None, false, false, [], [])

  datatype Line = Blank | NotJson | Message(msg: Json)

  datatype ReadEvent = EndOfStream | Oversized | Broken | Arrived(line: Line)

  datatype Poll = Poll(
    first: Time, second: Time, third: Time,
    reader: Option<ReadEvent>,
    steer: Option<SteerRequest>,
    write: WriteOutcome)

  /** What stays fixed during one call of the read loop. `receiver` says whether
    a steer channel was installed when the call began. */
  datatype Call = Call(
    sessionId: string, expectedId: nat, idleTimeout: Time, maxDuration: Time, receiver: bool)

  datatype Pending = Pending(id: nat, transport: SteerTransport, request: SteerRequest)

  datatype Acked = Acked(request: SteerRequest, ack: SteerAck)

  /** The client together with the loop's locals. `begun` is the clock reading with
    which the iteration that is still waiting passed its deadline check; `taken`
    and `acks` are history: requests taken from the channel, acknowledgements sent. */
  datatype Turn = Turn(
    client: Client,
    pendingSteer: Option<Pending>,
    idleDeadline: Time,
    hardDeadline: Time,
    lastActivityAt: Time,
    begun: Option<Time>,
    taken: seq<SteerRequest>,
    acks: seq<Acked>,
    outcome: Option<Outcome>)

  const UPDATE := "session/update"
  const USAGE_UPDATE := "_goose/unstable/session/update"
  const REQUEST_PERMISSION := "session/request_permission"
  const INJECTED := "injected"
  const STARTED_NEW_TURN := "startedNewTurn"

  // ---------------------------------------------------------------- messages

  predicate IsResponseTo(msg: Json, id: nat) {
    msg.Get("id") == Some(Int(id)) && msg.Get("method").None?
  }

  function AgentErrorOf(error: Json): TurnError {
    var code := error.At("code").AsI64();
    AgentReported(if code.Some? then code.value else -32000, StringField(error, "message"))
  }

  function SelectOption(options: seq<Json>, kind: string): Option<Json> {
    if options == [] then None
    else if StringField(options[0], "kind") == Some(kind) then Some(options[0])
    else SelectOption(options[1..], kind)
  }

  /** The option id sent back for a permission request, or why none can be. */
  function Choose(options: seq<Json>): Result<string, TurnError> {
    var allow := SelectOption(options, "allow_once");
    if allow.Some? then
      if StringField(allow.value, "optionId").Some? then Ok(StringField(allow.value, "optionId").value)
      else Err(Protocol("allow_once option missing optionId"))
    else
      var reject := SelectOption(options, "reject_once");
      if reject.None? then Err(Protocol("no suitable permission option found"))
      else if StringField(reject.value, "optionId").Some? then
        Ok(StringField(reject.value, "optionId").value)
      else Ok("reject")
  }

  /** `handle_permission_request`: the client afterwards and the error, if any. */
  function HandlePermission(c: Client, msg: Json, write: WriteOutcome): (Client, Option<TurnError>) {
    if msg.Get("id").None? then (c, Some(Protocol("permission request missing id")))
    else
      var id := msg.Get("id").value;
      var c := c.(pendingPermission := Some(id), permissionResponded := false,
                  permissionsAsked := c.permissionsAsked + [id]);
      var options := msg.At("params").At("options");
      if !options.Arr? then (c, Some(Protocol("permission request missing options")))
      else if Choose(options.items).Err? then (c, Some(Choose(options.items).error))
      else if write.Failed? then (c, Some(WriteFailed(write.cause)))
      else
        (c.(pendingPermission := None, permissionResponded := true,
            sent := c.sent + [PermissionReply(|c.permissionsAsked| - 1, id, Selected(Choose(options.items).value))]),
         None)
  }

  /** `handle_session_update`: the client afterwards, and whether a tool call started. */
  function HandleUpdate(c: Client, msg: Json): (Client, bool) {
    var update := msg.At("params").At("update");
    var kind := StringField(update, "sessionUpdate");
    if kind == Some("session_info_update") then
      var run := update.At("_meta").At("goose").Get("activeRunId");
      if run.Some? && run.value.Str? then (c.(activeRunId := Some(run.value.s)), false)
      else if run.Some? && run.value.Null? then (c.(activeRunId := None), false)
      else (c, false)
    else (c, kind == Some("tool_call"))
  }

  datatype Handled = Handled(client: Client, toolCall: bool, error: Option<TurnError>)

  /** Dispatch of a frame that answers none of our requests. */
  function Dispatch(c: Client, msg: Json, write: WriteOutcome): Handled {
    var name := StringField(msg, "method");
    if name.None? then Handled(c, false, None)
    else if name.value == UPDATE then
      var (c, tool) := HandleUpdate(c, msg);
      Handled(c, tool, None)
    else if name.value == USAGE_UPDATE then Handled(c, false, None)
    else if name.value == REQUEST_PERMISSION then
      var (c, error) := HandlePermission(c, msg, write);
      Handled(c, false, error)
    else if msg.Get("id").None? then Handled(c, false, None)
    else if write.Failed? then Handled(c, false, Some(WriteFailed(write.cause)))
    else Handled(c.(sent := c.sent + [MethodNotFound(msg.Get("id").value, name.value)]), false, None)
  }

  datatype Verdict = Delivered(renews: bool) | Undelivered(error: SteerError)

  /** What the agent's answer to a steer means for the request that was written. */
  function Judge(transport: SteerTransport, msg: Json): Verdict {
    if msg.Get("error").Some? then
      var error := msg.Get("error").value;
      Undelivered(AgentError(if error.At("code").AsI64().Some? then error.At("code").AsI64().value else -1, error))
    else if transport.Goose? then Delivered(true)
    else
      var reported := msg.At("result").Get("outcome");
      if reported == Some(Str(INJECTED)) then Delivered(true)
      else if reported == Some(Str(STARTED_NEW_TURN)) then Delivered(false)
      else Undelivered(OutcomeRejected(reported))
  }

  // ---------------------------------------------------------------- one wake-up

  function Nearer(t: Turn): Time {
    if t.idleDeadline < t.hardDeadline then t.idleDeadline else t.hardDeadline
  }

  function Acknowledge(t: Turn, request: SteerRequest, ack: SteerAck): Turn {
    t.(acks := t.acks + [Acked(request, ack)])
  }

  /** Return after releasing a steer still in flight. */
  function Finish(t: Turn, outcome: Outcome): Turn {
    var t := if t.pendingSteer.None? then t
             else Acknowledge(t, t.pendingSteer.value.request, PromptCompletedNeutral).(pendingSteer := None);
    t.(outcome := Some(outcome))
  }

  function TimeOut(k: Call, t: Turn, now: Time): Turn {
    Finish(t, Err(if t.idleDeadline < t.hardDeadline then IdleTimeout(k.idleTimeout)
                  else HardTimeout(if now < t.lastActivityAt then 0 else now - t.lastActivityAt)))
  }

  function Active(k: Call, t: Turn, now: Time): Turn {
    t.(idleDeadline := now + k.idleTimeout, lastActivityAt := now)
  }

  function Renew(k: Call, t: Turn, now: Time): Turn {
    if now + k.maxDuration > t.hardDeadline then
      t.(hardDeadline := now + k.maxDuration,
         client := t.client.(currentHardDeadline := Some(now + k.maxDuration)))
    else t
  }

  function OnSteerResponse(k: Call, t: Turn, msg: Json, p: Poll): Turn
    requires t.pendingSteer.Some?
  {
    var pending := t.pendingSteer.value;
    var t := t.(pendingSteer := None);
    match Judge(pending.transport, msg)
    case Delivered(renews) =>
      Acknowledge(if renews then Renew(k, t, p.third) else t, pending.request, Success(k.sessionId))
    case Undelivered(error) => Acknowledge(t, pending.request, Rejected(error))
  }

  function OnDispatch(k: Call, t: Turn, msg: Json, p: Poll): Turn {
    var h := Dispatch(t.client, msg, p.write);
    var t := t.(client := h.client);
    if h.error.Some? then t.(outcome := Some(Err(h.error.value)))
    else if h.toolCall then Active(k, t, p.third)
    else t
  }

  function OnMessage(k: Call, t: Turn, msg: Json, p: Poll): Turn {
    var t := Active(k, t, p.second);
    if t.pendingSteer.Some? && IsResponseTo(msg, t.pendingSteer.value.id) then OnSteerResponse(k, t, msg, p)
    else if IsResponseTo(msg, k.expectedId) then
      Finish(t, if msg.Get("error").Some? then Err(AgentErrorOf(msg.Get("error").value)) else Ok(msg.At("result")))
    else OnDispatch(k, t, msg, p)
  }

  function OnRead(k: Call, t: Turn, event: ReadEvent, p: Poll): Turn {
    match event
    case EndOfStream => Finish(t, Err(AgentExited))
    case Oversized => Finish(t, Err(LineTooLong))
    case Broken => Finish(t, Err(ReadFailed))
    case Arrived(Message(msg)) => OnMessage(k, t, msg, p)
    case Arrived(_) => t
  }

  /** The request to write for a steer, by the transports open at that moment. */
  function SteerBody(k: Call, c: Client, request: SteerRequest): Option<(SteerTransport, Body)> {
    if c.activeRunId.Some? then Some((Goose, GooseSteer(k.sessionId, c.activeRunId.value, request.blocks)))
    else if c.steeringSupported then Some((AcpExtension, AcpSteer(k.sessionId, request.blocks)))
    else None
  }

  function OnSteer(k: Call, t: Turn, request: SteerRequest, p: Poll): Turn {
    var t := t.(taken := t.taken + [request]);
    var body := SteerBody(k, t.client, request);
    if body.None? then Acknowledge(t, request, Rejected(ExpectedRunIdMissing))
    else
      var id := t.client.nextId;
      var t := t.(client := t.client.(nextId := id + 1));
      if p.write.Failed? then Acknowledge(t, request, Rejected(Transport(p.write.cause)))
      else t.(client := t.client.(sent := t.client.sent + [Request(id, body.value.1)]),
              pendingSteer := Some(Pending(id, body.value.0, request)))
  }

  /** One wake-up: the deadline check if an iteration begins here, then the first arm
    that is ready, in the loop's order; with none ready the iteration keeps waiting. */
  function Wake(k: Call, t: Turn, p: Poll): Turn {
    if t.outcome.Some? then t
    else if t.begun.None? && p.first >= Nearer(t) then TimeOut(k, t, p.second)
    else
      var start := if t.begun.Some? then t.begun else Some(p.first);
      var t := t.(begun := None);
      if p.reader.Some? then OnRead(k, t, p.reader.value, p)
      else if t.pendingSteer.None? && k.receiver && p.steer.Some? then OnSteer(k, t, p.steer.value, p)
      else if p.second >= Nearer(t) then TimeOut(k, t, p.third)
      else t.(begun := start)
  }

  function Start(c: Client, k: Call, now: Time, hardDeadline: Time): Turn {
    Turn(c.(steerInstalled := false), None, now + k.idleTimeout, hardDeadline, now, None, [], [], None)
  }

  function Run(k: Call, t: Turn, polls: seq<Poll>): Turn {
    if polls == [] then t else Wake(k, Run(k, t, polls[..|polls| - 1]), polls[|polls| - 1])
  }
}
