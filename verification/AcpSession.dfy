/** Whole calls of the agent client, and sessions made of them. Times are
  milliseconds. */
module AcpSession {
  import opened Wrappers
  import opened JsonValues
  import opened AcpTurn

  datatype StopReason = EndTurn | TurnCancelled | MaxTokens | MaxTurnRequests | Refusal

  function Lower(s: string): string {
    seq(|s|, i requires 0 <= i < |s| => if 'A' <= s[i] <= 'Z' then (s[i] as int + 32) as char else s[i])
  }

  function StopReasonOf(result: Json): Result<StopReason, TurnError> {
    var raw := StringField(result, "stopReason");
    if raw.None? then Err(Protocol("session/prompt response missing stopReason"))
    else
      var name := Lower(raw.value);
      if name == "end_turn" then Ok(EndTurn)
      else if name == "cancelled" then Ok(TurnCancelled)
      else if name == "max_tokens" then Ok(MaxTokens)
      else if name == "max_turn_requests" then Ok(MaxTurnRequests)
      else if name == "refusal" then Ok(Refusal)
      else Err(Protocol("unknown stopReason"))
  }

  function Parsed(outcome: Outcome): Result<StopReason, TurnError> {
    match outcome
    case Ok(result) => StopReasonOf(result)
    case Err(e) => Err(e)
  }

  /** A finished call, or `None` while the loop is still waiting when the trace ends. */
  datatype Returned = Returned(client: Client, result: Option<Result<StopReason, TurnError>>)

  /** `session_prompt_blocks_with_idle_timeout`. `began` is the clock when the turn's
    deadline is set, `waiting` when the read loop starts. */
  datatype PromptCall = PromptCall(
    sessionId: string, blocks: seq<string>, idleTimeout: Time, maxDuration: Time,
    began: Time, write: WriteOutcome, waiting: Time, polls: seq<Poll>)

  function PromptLoop(c: Client, a: PromptCall): Call {
    Call(a.sessionId, c.nextId, a.idleTimeout, a.maxDuration, c.steerInstalled)
  }

  function PromptStart(c: Client, a: PromptCall): Turn {
    Start(c.(nextId := c.nextId + 1, lastPromptId := Some(c.nextId),
             currentHardDeadline := Some(a.began + a.maxDuration),
             sent := c.sent + [Request(c.nextId, PromptTurn(a.sessionId, a.blocks))]),
          PromptLoop(c, a), a.waiting, a.began + a.maxDuration)
  }

  predicate IsTimeout(outcome: Outcome) {
    outcome.Err? && (outcome.error.IdleTimeout? || outcome.error.HardTimeout?)
  }

  function Prompt(c: Client, a: PromptCall): Returned {
    if a.write.Failed? then
      Returned(c.(nextId := c.nextId + 1, lastPromptId := None, currentHardDeadline := None),
               Some(Err(WriteFailed(a.write.cause))))
    else
      var t := Run(PromptLoop(c, a), PromptStart(c, a), a.polls);
      if t.outcome.None? then Returned(t.client, None)
      else if IsTimeout(t.outcome.value) then Returned(t.client, Some(Parsed(t.outcome.value)))
      else Returned(t.client.(lastPromptId := None, currentHardDeadline := None), Some(Parsed(t.outcome.value)))
  }

  /** The three ways a turn is cancelled share everything after the choice of the
    drain's deadline. `asked` is the clock when the cancel begins, `drained` when the
    remaining budget is computed, `waiting` when the read loop starts. */
  datatype CancelCall = CancelCall(
    sessionId: string, asked: Time, replyWrite: WriteOutcome, noticeWrite: WriteOutcome,
    drained: Time, waiting: Time, polls: seq<Poll>)

  const CLEANUP_GRACE: Time := 30_000

  /** The client once a permission still pending has been answered "cancelled". */
  function ReleasePermission(c: Client, write: WriteOutcome): Result<Client, TurnError> {
    if c.pendingPermission.None? then Ok(c)
    else if c.permissionResponded then Ok(c.(pendingPermission := None, permissionResponded := false))
    else if write.Failed? then Err(WriteFailed(write.cause))
    else
      Ok(c.(pendingPermission := None, permissionResponded := false,
            sent := c.sent + [PermissionReply(
                                if c.permissionsAsked != [] then |c.permissionsAsked| - 1 else 0,
                                c.pendingPermission.value, Cancelled)]))
  }

  /** `session_cancel`, the bare notice. */
  function NotifyCancel(c: Client, sessionId: string, write: WriteOutcome): (Client, Option<TurnError>) {
    if write.Failed? then (c, Some(WriteFailed(write.cause))) else (c.(sent := c.sent + [CancelNotice(sessionId)]), None)
  }

  function DrainLoop(c: Client, a: CancelCall, prompt: nat, hardDeadline: Time): Call {
    Call(a.sessionId, prompt, CLEANUP_GRACE,
         if hardDeadline < a.drained then 0 else hardDeadline - a.drained, c.steerInstalled)
  }

  function DrainStart(c: Client, a: CancelCall, prompt: nat, hardDeadline: Time): Turn {
    Start(c.(sent := c.sent + [CancelNotice(a.sessionId)]), DrainLoop(c, a, prompt, hardDeadline),
          a.waiting, hardDeadline)
  }

  function CancelUntil(c: Client, a: CancelCall, hardDeadline: Time): Returned {
    if c.lastPromptId.None? then
      Returned(c, Some(Err(Protocol("cancel_with_cleanup called with no in-flight prompt"))))
    else
      var prompt := c.lastPromptId.value;
      var c := c.(lastPromptId := None);
      var released := ReleasePermission(c, a.replyWrite);
      if released.Err? then Returned(c, Some(Err(released.error)))
      else if a.noticeWrite.Failed? then
        Returned(released.value, Some(Err(WriteFailed(a.noticeWrite.cause))))
      else
        var t := Run(DrainLoop(released.value, a, prompt, hardDeadline),
                     DrainStart(released.value, a, prompt, hardDeadline), a.polls);
        Returned(t.client, if t.outcome.None? then None else Some(Parsed(t.outcome.value)))
  }

  function CleanupDeadline(c: Client, asked: Time): Time {
    if c.currentHardDeadline.Some? && c.currentHardDeadline.value > asked + CLEANUP_GRACE
    then c.currentHardDeadline.value else asked + CLEANUP_GRACE
  }

  /** `cancel_with_cleanup`. */
  function Cancel(c: Client, a: CancelCall): Returned {
    CancelUntil(c.(currentHardDeadline := None), a, CleanupDeadline(c, a.asked))
  }

  /** `cancel_with_cleanup_grace`. */
  function CancelWithin(c: Client, a: CancelCall, grace: Time): Returned {
    var r := CancelUntil(c.(currentHardDeadline := None), a, a.asked + grace);
    if r.result.Some? && r.result.value.Err? && r.result.value.error.HardTimeout?
    then r.(result := Some(Err(CancelDrainTimeout(grace)))) else r
  }

  /** What a plain request reads, with the outcome of a write made for that frame. */
  datatype Heard = Heard(event: ReadEvent, write: WriteOutcome)

  datatype Answer = Answer(client: Client, outcome: Option<Outcome>)

  function Hear(id: nat, a: Answer, h: Heard): Answer {
    if a.outcome.Some? then a
    else
      match h.event
      case EndOfStream => a.(outcome := Some(Err(AgentExited)))
      case Oversized => a.(outcome := Some(Err(LineTooLong)))
      case Broken => a.(outcome := Some(Err(ReadFailed)))
      case Arrived(Message(msg)) =>
        if IsResponseTo(msg, id) then
          a.(outcome := Some(if msg.Get("error").Some? then Err(AgentErrorOf(msg.Get("error").value))
                             else Ok(msg.At("result"))))
        else
          var d := Dispatch(a.client, msg, h.write);
          Answer(d.client, if d.error.Some? then Some(Err(d.error.value)) else None)
      case Arrived(_) => a
  }

  /** `read_until_response`. */
  function HearAll(id: nat, a: Answer, heard: seq<Heard>): Answer {
    if heard == [] then a else Hear(id, HearAll(id, a, heard[..|heard| - 1]), heard[|heard| - 1])
  }

  /** `send_request`: `heard` is what arrives before the request times out. */
  function Ask(c: Client, name: string, write: WriteOutcome, heard: seq<Heard>): (Client, Outcome) {
    var asked := c.(nextId := c.nextId + 1);
    if write.Failed? then (asked, Err(WriteFailed(write.cause)))
    else
      var a := HearAll(c.nextId, Answer(asked.(sent := c.sent + [Request(c.nextId, Plain(name))]), None), heard);
      (a.client, if a.outcome.Some? then a.outcome.value else Err(RequestTimeout))
  }

  /** `initialize`. */
  function Initialize(c: Client, write: WriteOutcome, heard: seq<Heard>): (Client, Outcome) {
    var (c, r) := Ask(c, "initialize", write, heard);
    if r.Err? then (c, r)
    else (c.(steeringSupported := r.value.At("_meta").At("steering").At("supported") == Bool(true)), r)
  }

  /** Everything a caller can do with a client. */
  datatype Op =
    | DoInitialize(write: WriteOutcome, heard: seq<Heard>)
    | DoAsk(name: string, write: WriteOutcome, heard: seq<Heard>)
    | DoPrompt(prompt: PromptCall)
    | DoCancel(cancel: CancelCall)
    | DoCancelWithin(cancel: CancelCall, grace: Time)
    | DoNotifyCancel(sessionId: string, write: WriteOutcome)
    | InstallSteer
    | ClearSteer

  function Apply(c: Client, op: Op): Client {
    match op
    case DoInitialize(write, heard) => Initialize(c, write, heard).0
    case DoAsk(name, write, heard) => Ask(c, name, write, heard).0
    case DoPrompt(a) => Prompt(c, a).client
    case DoCancel(a) => Cancel(c, a).client
    case DoCancelWithin(a, grace) => CancelWithin(c, a, grace).client
    case DoNotifyCancel(sessionId, write) => NotifyCancel(c, sessionId, write).0
    case InstallSteer => c.(steerInstalled := true)
    case ClearSteer => c.(steerInstalled := false)
  }

  function Session(ops: seq<Op>): Client {
    if ops == [] then Spawned else Apply(Session(ops[..|ops| - 1]), ops[|ops| - 1])
  }
}
