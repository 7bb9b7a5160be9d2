/** The agent client itself: an object whose methods update its fields as the
  source does, each proved to do what its specification function says. */
module AcpClient {
  import opened Wrappers
  import opened JsonValues
  import opened AcpTurn
  import opened AcpSession

  lemma {:induction false} RunEnded(k: Call, t: Turn, polls: seq<Poll>, i: nat)
    requires i <= |polls| && Run(k, t, polls[..i]).outcome.Some?
    ensures Run(k, t, polls) == Run(k, t, polls[..i])
    decreases |polls|
  {
    if i == |polls| {
      assert polls[..i] == polls;
    } else {
      assert polls[..|polls| - 1][..i] == polls[..i];
      RunEnded(k, t, polls[..|polls| - 1], i);
    }
  }

  lemma RunNext(k: Call, t: Turn, polls: seq<Poll>, i: nat)
    requires i < |polls|
    ensures Run(k, t, polls[..i + 1]) == Wake(k, Run(k, t, polls[..i]), polls[i])
  {
    hide Wake;
    assert polls[..i + 1][..i] == polls[..i];
  }

  lemma {:induction false} HearAllEnded(id: nat, a: Answer, heard: seq<Heard>, i: nat)
    requires i <= |heard| && HearAll(id, a, heard[..i]).outcome.Some?
    ensures HearAll(id, a, heard) == HearAll(id, a, heard[..i])
    decreases |heard|
  {
    if i == |heard| {
      assert heard[..i] == heard;
    } else {
      assert heard[..|heard| - 1][..i] == heard[..i];
      HearAllEnded(id, a, heard[..|heard| - 1], i);
    }
  }

  /** The locals of the read loop. */
  datatype Locals = Locals(
    pendingSteer: Option<Pending>, idleDeadline: Time, hardDeadline: Time, lastActivityAt: Time,
    begun: Option<Time>, acks: seq<Acked>, outcome: Option<Outcome>)

  function LocalsOf(t: Turn): Locals {
    Locals(t.pendingSteer, t.idleDeadline, t.hardDeadline, t.lastActivityAt, t.begun, t.acks, t.outcome)
  }

  /** Leave the loop, releasing a steer still in flight. */
  function Return(locals: Locals, outcome: Outcome): Locals {
    locals.(pendingSteer := None, outcome := Some(outcome),
            acks := if locals.pendingSteer.None? then locals.acks
                    else locals.acks + [Acked(locals.pendingSteer.value.request, PromptCompletedNeutral)])
  }

  function TimeoutError(k: Call, locals: Locals, now: Time): TurnError {
    if locals.idleDeadline < locals.hardDeadline then IdleTimeout(k.idleTimeout)
    else HardTimeout(if now < locals.lastActivityAt then 0 else now - locals.lastActivityAt)
  }

  class AcpClient {
    var nextId: nat
    var pendingPermission: Option<Json>
    var permissionResponded: bool
    var lastPromptId: Option<nat>
    var currentHardDeadline: Option<Time>
    var activeRunId: Option<string>
    var steeringSupported: bool
    var steerInstalled: bool
    ghost var permissionsAsked: seq<Json>
    ghost var sent: seq<Sent>

    ghost function View(): Client
      reads this
    {
      Client(nextId, pendingPermission, permissionResponded, lastPromptId, currentHardDeadline,
             activeRunId, steeringSupported, steerInstalled, permissionsAsked, sent)
    }

    constructor ()
      ensures View() == Spawned
    {
      nextId := 0;
      pendingPermission := None;
      permissionResponded := false;
      lastPromptId := None;
      currentHardDeadline := None;
      activeRunId := None;
      steeringSupported := false;
      steerInstalled := false;
      permissionsAsked := [];
      sent := [];
    }

    /** A second receiver must not be stacked on the first. */
    method InstallSteer()
      requires !steerInstalled
      modifies this
      ensures View() == Apply(old(View()), Op.InstallSteer)
    {
      steerInstalled := true;
    }

    method ClearSteer()
      modifies this
      ensures View() == Apply(old(View()), Op.ClearSteer)
    {
      steerInstalled := false;
    }

    method HandlePermissionRequest(msg: Json, write: WriteOutcome) returns (error: Option<TurnError>)
      modifies this
      ensures (View(), error) == HandlePermission(old(View()), msg, write)
    {
      var id := msg.Get("id");
      if id.None? {
        return Some(Protocol("permission request missing id"));
      }
      pendingPermission := id;
      permissionResponded := false;
      permissionsAsked := permissionsAsked + [id.value];
      var options := msg.At("params").At("options");
      if !options.Arr? {
        return Some(Protocol("permission request missing options"));
      }
      var choice := Choose(options.items);
      if choice.Err? {
        return Some(choice.error);
      }
      if write.Failed? {
        return Some(WriteFailed(write.cause));
      }
      sent := sent + [PermissionReply(|permissionsAsked| - 1, id.value, Selected(choice.value))];
      permissionResponded := true;
      pendingPermission := None;
      return None;
    }

    method HandleSessionUpdate(msg: Json) returns (toolCall: bool)
      modifies this
      ensures (View(), toolCall) == HandleUpdate(old(View()), msg)
    {
      var update := msg.At("params").At("update");
      var kind := StringField(update, "sessionUpdate");
      if kind == Some("session_info_update") {
        var run := update.At("_meta").At("goose").Get("activeRunId");
        if run.Some? && run.value.Str? {
          activeRunId := Some(run.value.s);
        } else if run.Some? && run.value.Null? {
          activeRunId := None;
        }
        return false;
      }
      return kind == Some("tool_call");
    }

    method DispatchMessage(msg: Json, write: WriteOutcome) returns (toolCall: bool, error: Option<TurnError>)
      modifies this
      ensures Handled(View(), toolCall, error) == Dispatch(old(View()), msg, write)
    {
      hide HandleUpdate, HandlePermission;
      toolCall, error := false, None;
      var name := StringField(msg, "method");
      if name.Some? {
        if name.value == UPDATE {
          toolCall := HandleSessionUpdate(msg);
        } else if name.value == USAGE_UPDATE {
        } else if name.value == REQUEST_PERMISSION {
          error := HandlePermissionRequest(msg, write);
        } else if msg.Get("id").Some? {
          if write.Failed? {
            error := Some(WriteFailed(write.cause));
          } else {
            sent := sent + [MethodNotFound(msg.Get("id").value, name.value)];
          }
        }
      }
    }

    /** Write a steer on the transport open at this moment. */
    method WriteSteer(k: Call, request: SteerRequest, write: WriteOutcome, ghost t: Turn, ghost p: Poll)
      returns (pending: Option<Pending>, ack: Option<SteerAck>)
      requires t.client == View() && t.pendingSteer.None? && p.write == write
      modifies this
      ensures OnSteer(k, t, request, p)
                == t.(client := View(), taken := t.taken + [request], pendingSteer := pending,
                      acks := if ack.Some? then t.acks + [Acked(request, ack.value)] else t.acks)
    {
      pending, ack := None, None;
      var selected :=
        if activeRunId.Some? then Some((Goose, GooseSteer(k.sessionId, activeRunId.value, request.blocks)))
        else if steeringSupported then Some((AcpExtension, AcpSteer(k.sessionId, request.blocks)))
        else None;
      if selected.None? {
        ack := Some(Rejected(ExpectedRunIdMissing));
      } else {
        var id := nextId;
        nextId := nextId + 1;
        if write.Written? {
          sent := sent + [Request(id, selected.value.1)];
          pending := Some(Pending(id, selected.value.0, request));
        } else {
          ack := Some(Rejected(Transport(write.cause)));
        }
      }
    }

    /** Judge the answer to a steer, renewing the turn when it went into the live one. */
    method SettleSteer(k: Call, msg: Json, p: Poll, locals: Locals, ghost t: Turn) returns (locals': Locals)
      requires t.client == View() && locals == LocalsOf(t) && t.pendingSteer.Some?
      modifies this
      ensures locals' == LocalsOf(OnSteerResponse(k, t, msg, p)) && View() == OnSteerResponse(k, t, msg, p).client
    {
      hide Judge;
      var pending := locals.pendingSteer.value;
      locals' := locals.(pendingSteer := None);
      var verdict := Judge(pending.transport, msg);
      if verdict.Undelivered? {
        locals' := locals'.(acks := locals'.acks + [Acked(pending.request, Rejected(verdict.error))]);
      } else {
        if verdict.renews && p.third + k.maxDuration > locals.hardDeadline {
          locals' := locals'.(hardDeadline := p.third + k.maxDuration);
          currentHardDeadline := Some(locals'.hardDeadline);
        }
        locals' := locals'.(acks := locals'.acks + [Acked(pending.request, Success(k.sessionId))]);
      }
    }

    /** A frame of valid JSON: `t` is the turn so far. */
    method HandleFrame(k: Call, msg: Json, p: Poll, locals: Locals, ghost t: Turn) returns (locals': Locals)
      requires t.client == View() && locals == LocalsOf(t) && t.outcome.None?
      modifies this
      ensures locals' == LocalsOf(OnMessage(k, t, msg, p)) && View() == OnMessage(k, t, msg, p).client
    {
      hide Dispatch, OnSteerResponse;
      locals' := locals.(idleDeadline := p.second + k.idleTimeout, lastActivityAt := p.second);
      if locals.pendingSteer.Some? && IsResponseTo(msg, locals.pendingSteer.value.id) {
        locals' := SettleSteer(k, msg, p, locals', Active(k, t, p.second));
      } else if IsResponseTo(msg, k.expectedId) {
        locals' := Return(locals', if msg.Get("error").Some? then Err(AgentErrorOf(msg.Get("error").value))
                                   else Ok(msg.At("result")));
      } else {
        var toolCall, error := DispatchMessage(msg, p.write);
        if error.Some? {
          locals' := locals'.(outcome := Some(Err(error.value)));
        } else if toolCall {
          locals' := locals'.(idleDeadline := p.third + k.idleTimeout, lastActivityAt := p.third);
        }
      }
    }

    /** One wake-up of the loop: `t` is the turn so far. */
    method WakeUp(k: Call, p: Poll, receiver: bool, locals: Locals, ghost t: Turn) returns (locals': Locals)
      requires receiver == k.receiver && t.outcome.None?
      requires locals == LocalsOf(t) && t.client == View()
      modifies this
      ensures locals' == LocalsOf(Wake(k, t, p)) && View() == Wake(k, t, p).client
    {
      hide OnMessage, OnSteer;
      var idleFiresFirst := locals.idleDeadline < locals.hardDeadline;
      var nextDeadline := if idleFiresFirst then locals.idleDeadline else locals.hardDeadline;
      if locals.begun.None? && p.first >= nextDeadline {
        return Return(locals, Err(TimeoutError(k, locals, p.second)));
      }
      if p.reader.Some? {
        locals' := locals.(begun := None);
        match p.reader.value
        case EndOfStream => return Return(locals', Err(AgentExited));
        case Oversized => return Return(locals', Err(LineTooLong));
        case Broken => return Return(locals', Err(ReadFailed));
        case Arrived(Message(msg)) =>
          locals' := HandleFrame(k, msg, p, locals', t.(begun := None));
          return;
        case Arrived(_) => return;
      }
      if locals.pendingSteer.None? && receiver && p.steer.Some? {
        var pending, ack := WriteSteer(k, p.steer.value, p.write, t.(begun := None), p);
        locals' := locals.(begun := None, pendingSteer := pending);
        if ack.Some? {
          locals' := locals'.(acks := locals'.acks + [Acked(p.steer.value, ack.value)]);
        }
        return;
      }
      if p.second >= nextDeadline {
        return Return(locals.(begun := None), Err(TimeoutError(k, locals, p.third)));
      }
      return locals.(begun := if locals.begun.Some? then locals.begun else Some(p.first));
    }

    /** The read loop. It returns `None` when the trace ends while it still waits. */
    method ReadUntilResponseWithIdleTimeout(k: Call, waiting: Time, hard: Time, polls: seq<Poll>)
      returns (outcome: Option<Outcome>, acks: seq<Acked>)
      requires k.receiver == steerInstalled
      modifies this
      ensures var t := Run(k, Start(old(View()), k, waiting, hard), polls);
              View() == t.client && outcome == t.outcome && acks == t.acks
    {
      ghost var start := Start(View(), k, waiting, hard);
      var receiver := steerInstalled;
      steerInstalled := false;
      var locals := Locals(None, waiting + k.idleTimeout, hard, waiting, None, [], None);
      var i := 0;
      while i < |polls| && locals.outcome.None?
        invariant i <= |polls|
        invariant View() == Run(k, start, polls[..i]).client && locals == LocalsOf(Run(k, start, polls[..i]))
      {
        hide Run, Wake;
        RunNext(k, start, polls, i);
        locals := WakeUp(k, polls[i], receiver, locals, Run(k, start, polls[..i]));
        i := i + 1;
      }
      if locals.outcome.Some? {
        RunEnded(k, start, polls, i);
      } else {
        assert polls[..i] == polls;
      }
      return locals.outcome, locals.acks;
    }

    method SessionPrompt(a: PromptCall) returns (result: Option<Result<StopReason, TurnError>>)
      modifies this
      ensures Returned(View(), result) == Prompt(old(View()), a)
    {
      hide Run, StopReasonOf;
      var hardDeadline := a.began + a.maxDuration;
      currentHardDeadline := Some(hardDeadline);
      lastPromptId := Some(nextId);
      var id := nextId;
      nextId := nextId + 1;
      if a.write.Failed? {
        lastPromptId := None;
        currentHardDeadline := None;
        return Some(Err(WriteFailed(a.write.cause)));
      }
      sent := sent + [Request(id, PromptTurn(a.sessionId, a.blocks))];
      var k := Call(a.sessionId, id, a.idleTimeout, a.maxDuration, steerInstalled);
      var outcome, acks := ReadUntilResponseWithIdleTimeout(k, a.waiting, hardDeadline, a.polls);
      if outcome.None? {
        return None;
      }
      if !IsTimeout(outcome.value) {
        lastPromptId := None;
        currentHardDeadline := None;
      }
      return Some(Parsed(outcome.value));
    }

    method SessionCancel(sessionId: string, write: WriteOutcome) returns (error: Option<TurnError>)
      modifies this
      ensures (View(), error) == NotifyCancel(old(View()), sessionId, write)
      ensures write.Written? ==> error == None && View() == old(View()).(sent := old(sent) + [CancelNotice(sessionId)])
      ensures write.Failed? ==> error == Some(WriteFailed(write.cause)) && View() == old(View())
    {
      if write.Failed? {
        return Some(WriteFailed(write.cause));
      }
      sent := sent + [CancelNotice(sessionId)];
      return None;
    }

    /** Refuse the permission still pending, unless it has been answered. */
    method ReleasePending(write: WriteOutcome) returns (error: Option<TurnError>)
      modifies this
      ensures error.Some? == ReleasePermission(old(View()), write).Err?
      ensures error.Some? ==> error.value == ReleasePermission(old(View()), write).error && View() == old(View())
      ensures error.None? ==> View() == ReleasePermission(old(View()), write).value
    {
      if pendingPermission.Some? {
        if !permissionResponded {
          if write.Failed? {
            return Some(WriteFailed(write.cause));
          }
          sent := sent + [PermissionReply(if permissionsAsked != [] then |permissionsAsked| - 1 else 0,
                                          pendingPermission.value, Cancelled)];
        }
        pendingPermission := None;
        permissionResponded := false;
      }
      return None;
    }

    method CancelWithCleanupUntil(a: CancelCall, hardDeadline: Time)
      returns (result: Option<Result<StopReason, TurnError>>)
      modifies this
      ensures Returned(View(), result) == CancelUntil(old(View()), a, hardDeadline)
    {
      hide Run, StopReasonOf, ReleasePermission;
      if lastPromptId.None? {
        return Some(Err(Protocol("cancel_with_cleanup called with no in-flight prompt")));
      }
      var prompt := lastPromptId.value;
      lastPromptId := None;
      assert View() == old(View()).(lastPromptId := None);
      var error := ReleasePending(a.replyWrite);
      if error.Some? {
        return Some(Err(error.value));
      }
      error := SessionCancel(a.sessionId, a.noticeWrite);
      if error.Some? {
        return Some(Err(error.value));
      }
      var remaining := if hardDeadline < a.drained then 0 else hardDeadline - a.drained;
      var k := Call(a.sessionId, prompt, CLEANUP_GRACE, remaining, steerInstalled);
      var outcome, acks := ReadUntilResponseWithIdleTimeout(k, a.waiting, hardDeadline, a.polls);
      return if outcome.None? then None else Some(Parsed(outcome.value));
    }

    method CancelWithCleanup(a: CancelCall) returns (result: Option<Result<StopReason, TurnError>>)
      modifies this
      ensures Returned(View(), result) == Cancel(old(View()), a)
    {
      hide CancelUntil;
      var stored := currentHardDeadline;
      currentHardDeadline := None;
      var least := a.asked + CLEANUP_GRACE;
      result := CancelWithCleanupUntil(a, if stored.Some? && stored.value > least then stored.value else least);
    }

    method CancelWithCleanupGrace(a: CancelCall, grace: Time) returns (result: Option<Result<StopReason, TurnError>>)
      modifies this
      ensures Returned(View(), result) == CancelWithin(old(View()), a, grace)
    {
      hide CancelUntil;
      currentHardDeadline := None;
      result := CancelWithCleanupUntil(a, a.asked + grace);
      if result.Some? && result.value.Err? && result.value.error.HardTimeout? {
        result := Some(Err(CancelDrainTimeout(grace)));
      }
    }

    /** The plain read loop; `None` when the trace ends without an answer. */
    method ReadUntilResponse(id: nat, heard: seq<Heard>) returns (outcome: Option<Outcome>)
      modifies this
      ensures Answer(View(), outcome) == HearAll(id, Answer(old(View()), None), heard)
    {
      outcome := None;
      ghost var start := Answer(View(), None);
      var i := 0;
      while i < |heard| && outcome.None?
        invariant i <= |heard|
        invariant Answer(View(), outcome) == HearAll(id, start, heard[..i])
        decreases |heard| - i
      {
        hide Dispatch;
        assert heard[..i + 1][..i] == heard[..i];
        var h := heard[i];
        match h.event {
          case EndOfStream => outcome := Some(Err(AgentExited));
          case Oversized => outcome := Some(Err(LineTooLong));
          case Broken => outcome := Some(Err(ReadFailed));
          case Arrived(Message(msg)) =>
            if IsResponseTo(msg, id) {
              outcome := Some(if msg.Get("error").Some? then Err(AgentErrorOf(msg.Get("error").value))
                              else Ok(msg.At("result")));
            } else {
              var toolCall, error := DispatchMessage(msg, h.write);
              if error.Some? {
                outcome := Some(Err(error.value));
              }
            }
          case Arrived(_) =>
        }
        i := i + 1;
      }
      if outcome.Some? {
        HearAllEnded(id, start, heard, i);
      } else {
        assert heard[..i] == heard;
      }
    }

    method SendRequest(name: string, write: WriteOutcome, heard: seq<Heard>) returns (r: Outcome)
      modifies this
      ensures (View(), r) == Ask(old(View()), name, write, heard)
    {
      hide HearAll;
      var id := nextId;
      nextId := nextId + 1;
      if write.Failed? {
        return Err(WriteFailed(write.cause));
      }
      sent := sent + [Request(id, Plain(name))];
      var outcome := ReadUntilResponse(id, heard);
      return if outcome.Some? then outcome.value else Err(RequestTimeout);
    }

    method InitializeAgent(write: WriteOutcome, heard: seq<Heard>) returns (r: Outcome)
      modifies this
      ensures (View(), r) == Initialize(old(View()), write, heard)
    {
      hide Ask;
      r := SendRequest("initialize", write, heard);
      if r.Ok? {
        steeringSupported := r.value.At("_meta").At("steering").At("supported") == Bool(true);
      }
    }
  }
}
