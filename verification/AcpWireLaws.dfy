/** What the client writes to the agent, what it remembers of the agent's frames, and what a
  call says when it returns: each told from the frame and the fields alone. */
module AcpWireLaws {
  import opened Wrappers
  import opened JsonValues
  import opened AcpTurn
  import opened AcpTurnLaws
  import opened AcpSession
  import opened AcpSessionLaws

  // ---------------------------------------------------------------- frames

  predicate Named(msg: Json, name: string) {
    msg.Get("method") == Some(Str(name))
  }

  lemma NamedIs(msg: Json, name: string)
    ensures Named(msg, name) <==> StringField(msg, "method") == Some(name)
  {
  }

  /** A permission request that can be answered is answered with the option chosen, under the
    id it came with; one that cannot, or whose reply is not written, stays pending. */
  lemma PermissionAnswered(c: Client, msg: Json, write: WriteOutcome, id: string)
    requires Named(msg, "session/request_permission")
    ensures var d := Dispatch(c, msg, write).client;
            && (msg.Get("id").None? ==> d == c)
            && (msg.Get("id").Some? ==>
                  var rpcId := msg.Get("id").value;
                  && d.permissionsAsked == c.permissionsAsked + [rpcId]
                  && (Unanswerable(msg) || write.Failed? ==>
                        d.sent == c.sent && d.pendingPermission == Some(rpcId) && !d.permissionResponded)
                  && (!Unanswerable(msg) && write.Written? ==>
                        && d.pendingPermission == None && d.permissionResponded
                        && (Chosen(msg.At("params").At("options").items, id) ==>
                              d.sent == c.sent + [PermissionReply(|c.permissionsAsked|, rpcId, Selected(id))])))
  {
    NamedIs(msg, REQUEST_PERMISSION);
    PermissionFailsExactly(c, msg, write);
    var options := msg.At("params").At("options");
    if options.Arr? {
      ChoosesExactly(options.items, id);
      ChoiceFailsExactly(options.items);
    }
    hide Choose, StringField, Chosen, NoChoice;
  }

  /** A request by any name the client does not know is answered "method not found" under its
    own id and name, and nothing else is written for it. */
  lemma UnknownMethodAnswered(c: Client, msg: Json, name: string, write: WriteOutcome)
    requires Named(msg, name) && name != "session/update" && name != "session/request_permission"
    requires name != "_goose/unstable/session/update"
    ensures var d := Dispatch(c, msg, write).client;
            d == if msg.Get("id").Some? && write.Written? then c.(sent := c.sent + [MethodNotFound(msg.Get("id").value, name)]) else c
  {
    NamedIs(msg, name);
    hide HandlePermission, HandleUpdate, StringField;
  }

  /** An update writes nothing. It sets the run id to a string, clears it for `null`, leaves
    it for anything else, and counts as the start of a tool call by that name only. */
  lemma UpdateHeard(c: Client, msg: Json, write: WriteOutcome)
    requires Named(msg, "session/update")
    ensures var h := Dispatch(c, msg, write);
            var update := msg.At("params").At("update");
            var run := update.At("_meta").At("goose").Get("activeRunId");
            var info := update.Get("sessionUpdate") == Some(Str("session_info_update"));
            && h.error == None
            && (h.toolCall <==> update.Get("sessionUpdate") == Some(Str("tool_call")))
            && h.client == c.(activeRunId := h.client.activeRunId)
            && (info && run.Some? && run.value.Str? ==> h.client.activeRunId == Some(run.value.s))
            && (info && run == Some(Null) ==> h.client.activeRunId == None)
            && (!(info && run.Some? && (run.value.Str? || run.value.Null?)) ==> h.client.activeRunId == c.activeRunId)
  {
    NamedIs(msg, UPDATE);
    UpdateKind(msg.At("params").At("update"));
    hide StringField, HandlePermission;
  }

  lemma UpdateKind(update: Json)
    ensures StringField(update, "sessionUpdate") == Some("session_info_update") <==>
            update.Get("sessionUpdate") == Some(Str("session_info_update"))
    ensures StringField(update, "sessionUpdate") == Some("tool_call") <==> update.Get("sessionUpdate") == Some(Str("tool_call"))
  {
  }

  /** A usage update, and a frame without a method, change nothing. */
  lemma OtherFramesIgnored(c: Client, msg: Json, write: WriteOutcome)
    requires Named(msg, "_goose/unstable/session/update") || msg.Get("method").None? || !msg.Get("method").value.Str?
    ensures Dispatch(c, msg, write) == Handled(c, false, None)
  {
    NamedIs(msg, USAGE_UPDATE);
    hide HandlePermission, HandleUpdate;
  }

  // ---------------------------------------------------------------- steers on the wire

  /** What a steer says to the agent: the blocks of the request, and with a run id known the
    run it is meant for. */
  predicate Says(k: Call, run: Option<string>, request: SteerRequest, body: Body) {
    match run
    case Some(id) => body == GooseSteer(k.sessionId, id, request.blocks)
    case None => body == AcpSteer(k.sessionId, request.blocks)
  }

  /** A steer taken with a transport open is written with the next id, and says what the
    request says; with none open nothing is written and no id used. */
  lemma SteerWritten(k: Call, t: Turn, p: Poll)
    requires TakesSteer(k, t, p)
    ensures var u := Wake(k, t, p);
            && u.taken == t.taken + [p.steer.value] && u.outcome == None
            && (NoTransport(t.client) ==> u.client == t.client && u.pendingSteer == None)
            && (!NoTransport(t.client) && p.write.Failed? ==> u.client == t.client.(nextId := t.client.nextId + 1) && u.pendingSteer == None)
            && (!NoTransport(t.client) && p.write.Written? ==>
                  exists b :: Says(k, t.client.activeRunId, p.steer.value, b)
                              && u.client == t.client.(nextId := t.client.nextId + 1, sent := t.client.sent + [Request(t.client.nextId, b)])
                              && u.pendingSteer == Some(Pending(t.client.nextId,
                                                                if t.client.activeRunId.Some? then Goose else AcpExtension,
                                                                p.steer.value)))
  {
    hide OnRead;
    var c := t.client;
    var b := if c.activeRunId.Some? then GooseSteer(k.sessionId, c.activeRunId.value, p.steer.value.blocks)
             else AcpSteer(k.sessionId, p.steer.value.blocks);
    assert Says(k, c.activeRunId, p.steer.value, b);
  }

  /** The line `j` asks the agent for this steer, under this id. */
  predicate AsksFor(sent: seq<Sent>, j: int, sessionId: string, id: nat, request: SteerRequest, transport: SteerTransport) {
    && 0 <= j < |sent| && sent[j].Request? && sent[j].id == id
    && match sent[j].body
       case GooseSteer(session, _, blocks) => transport.Goose? && session == sessionId && blocks == request.blocks
       case AcpSteer(session, blocks) => transport.AcpExtension? && session == sessionId && blocks == request.blocks
       case _ => false
  }

  /** The steer in flight has been asked for. */
  ghost predicate Asked(k: Call, t: Turn) {
    t.pendingSteer.Some? ==>
      exists j :: AsksFor(t.client.sent, j, k.sessionId, t.pendingSteer.value.id, t.pendingSteer.value.request, t.pendingSteer.value.transport)
  }

  lemma StaysAsked(before: seq<Sent>, after: seq<Sent>, j: int, sessionId: string, id: nat, request: SteerRequest, transport: SteerTransport)
    requires before <= after && AsksFor(before, j, sessionId, id, request, transport)
    ensures AsksFor(after, j, sessionId, id, request, transport)
  {
    assert after[j] == before[j];
  }

  lemma WakeAsks(k: Call, t: Turn, p: Poll)
    requires Asked(k, t)
    ensures Asked(k, Wake(k, t, p))
  {
    var u := Wake(k, t, p);
    WakeSentGrows(k, t, p);
    if TakesSteer(k, t, p) {
      SteerWritten(k, t, p);
      hide Wake;
      if u.pendingSteer.Some? {
        assert AsksFor(u.client.sent, |t.client.sent|, k.sessionId, u.pendingSteer.value.id, u.pendingSteer.value.request,
                       u.pendingSteer.value.transport);
      }
    } else {
      PendingStays(k, t, p);
      hide Wake, TakesSteer, AsksFor;
      if u.pendingSteer.Some? {
        var s := t.pendingSteer.value;
        var j :| AsksFor(t.client.sent, j, k.sessionId, s.id, s.request, s.transport);
        StaysAsked(t.client.sent, u.client.sent, j, k.sessionId, s.id, s.request, s.transport);
      }
    }
  }

  lemma PendingStays(k: Call, t: Turn, p: Poll)
    requires !TakesSteer(k, t, p)
    ensures Wake(k, t, p).pendingSteer.None? || Wake(k, t, p).pendingSteer == t.pendingSteer
  {
    hide OnMessage, OnSteer;
    if CarriesJson(p) {
      MessageSpends(k, t.(begun := None), p.reader.value.line.msg, p);
    }
  }

  lemma {:induction false} RunAsks(k: Call, s: Turn, polls: seq<Poll>)
    requires Asked(k, s)
    ensures Asked(k, Run(k, s, polls))
    decreases |polls|
  {
    hide Wake, Asked;
    if polls != [] {
      RunAsks(k, s, polls[..|polls| - 1]);
      WakeAsks(k, Run(k, s, polls[..|polls| - 1]), polls[|polls| - 1]);
    }
  }

  /** Frame `i` of a run delivers the steer that line `j` of what was written asks for. */
  ghost predicate DeliveredAsAsked(k: Call, s: Turn, polls: seq<Poll>, x: Acked, i: int, j: int, id: nat) {
    && 0 <= i < |polls|
    && Delivers(k, Run(k, s, polls[..i]), polls[i]) && IsResponseTo(polls[i].reader.value.line.msg, id)
    && (AsksFor(Run(k, s, polls).client.sent, j, k.sessionId, id, x.request, Goose)
        || AsksFor(Run(k, s, polls).client.sent, j, k.sessionId, id, x.request, AcpExtension))
  }

  /** Every success reported in a run is for a request whose own blocks were written to the
    agent, under the id that the agent answered. */
  lemma SuccessWasAskedFor(k: Call, s: Turn, polls: seq<Poll>, a: nat)
    requires Asked(k, s) && |s.acks| <= a < |Run(k, s, polls).acks| && Run(k, s, polls).acks[a].ack.Success?
    ensures exists i, j, id :: DeliveredAsAsked(k, s, polls, Run(k, s, polls).acks[a], i, j, id)
  {
    EverySuccessWasDelivered(k, s, polls, a);
    var i :| 0 <= i < |polls| && Delivers(k, Run(k, s, polls[..i]), polls[i]) && |Run(k, s, polls[..i]).acks| == a
             && Run(k, s, polls[..i]).pendingSteer.value.request == Run(k, s, polls).acks[a].request;
    var t := Run(k, s, polls[..i]);
    RunAsks(k, s, polls[..i]);
    var pending := t.pendingSteer.value;
    var j :| AsksFor(t.client.sent, j, k.sessionId, pending.id, pending.request, pending.transport);
    PrefixSent(k, s, polls, i);
    StaysAsked(t.client.sent, Run(k, s, polls).client.sent, j, k.sessionId, pending.id, pending.request, pending.transport);
    hide Run, AsksFor;
    assert DeliveredAsAsked(k, s, polls, Run(k, s, polls).acks[a], i, j, pending.id);
  }

  lemma {:induction false} PrefixSent(k: Call, s: Turn, polls: seq<Poll>, i: nat)
    requires i <= |polls|
    ensures Run(k, s, polls[..i]).client.sent <= Run(k, s, polls).client.sent
    decreases |polls|
  {
    hide Wake;
    if i == |polls| {
      assert polls[..i] == polls;
    } else {
      var n := |polls| - 1;
      assert polls[..n][..i] == polls[..i];
      PrefixSent(k, s, polls[..n], i);
      WakeSentGrows(k, Run(k, s, polls[..n]), polls[n]);
    }
  }

  // ---------------------------------------------------------------- how a turn ends

  /** What a loop says when it gives up waiting: the limit, if that came first, or else how
    long the agent has been silent. */
  lemma TimeoutSays(k: Call, t: Turn, p: Poll)
    requires t.outcome.None? && t.begun.None?
    ensures p.first >= t.idleDeadline && t.idleDeadline < t.hardDeadline ==>
              Wake(k, t, p).outcome == Some(Err(IdleTimeout(k.idleTimeout)))
    ensures p.first >= t.hardDeadline && t.hardDeadline <= t.idleDeadline && p.second >= t.lastActivityAt ==>
              Wake(k, t, p).outcome == Some(Err(HardTimeout(p.second - t.lastActivityAt)))
  {
    hide OnRead, OnSteer;
  }

  /** What it says when the stream fails, and when its answer comes. */
  lemma ReadSays(k: Call, t: Turn, p: Poll)
    requires Handling(t, p) && p.reader.Some?
    requires t.pendingSteer.Some? ==> t.pendingSteer.value.id != k.expectedId
    ensures p.reader.value == EndOfStream ==> Wake(k, t, p).outcome == Some(Err(AgentExited))
    ensures p.reader.value == Oversized ==> Wake(k, t, p).outcome == Some(Err(LineTooLong))
    ensures p.reader.value == ReadEvent.Broken ==> Wake(k, t, p).outcome == Some(Err(ReadFailed))
    ensures p.reader.value.Arrived? && !p.reader.value.line.Message? ==> Wake(k, t, p) == t.(begun := None)
    ensures CarriesJson(p) && IsResponseTo(p.reader.value.line.msg, k.expectedId) ==>
              var msg := p.reader.value.line.msg;
              Wake(k, t, p).outcome == Some(match msg.Get("error") case None => Ok(msg.At("result")) case Some(e) => Err(Told(e)))
  {
    hide Dispatch, OnSteerResponse, OnSteer;
    if CarriesJson(p) && p.reader.value.line.msg.Get("error").Some? {
      AgentErrorTold(p.reader.value.line.msg.Get("error").value);
    }
    hide AgentErrorOf;
  }

  /** An agent's error: its code, or -32000, and its message, if it has one. */
  function Told(error: Json): TurnError {
    AgentReported(
      match error.Get("code")
      case Some(Int(n)) => if -0x8000_0000_0000_0000 <= n < 0x8000_0000_0000_0000 then n else -32000
      case _ => -32000,
      match error.Get("message")
      case Some(Str(text)) => Some(text)
      case _ => None)
  }

  lemma AgentErrorTold(error: Json)
    ensures AgentErrorOf(error) == Told(error)
  {
  }

  // ---------------------------------------------------------------- whole calls

  /** A prompt is written first of all, with the next id and its own blocks. */
  lemma PromptSpeaks(c: Client, a: PromptCall)
    ensures a.write.Written? ==> c.sent + [Request(c.nextId, PromptTurn(a.sessionId, a.blocks))] <= Prompt(c, a).client.sent
    ensures a.write.Failed? ==> Prompt(c, a).client.sent == c.sent && Prompt(c, a).result == Some(Err(WriteFailed(a.write.cause)))
  {
    hide Run;
    SentGrows(PromptLoop(c, a), PromptStart(c, a), a.polls);
  }

  /** A plain request likewise. */
  lemma RequestSpeaks(c: Client, name: string, write: WriteOutcome, heard: seq<Heard>)
    ensures write.Written? ==> c.sent + [Request(c.nextId, Plain(name))] <= Ask(c, name, write, heard).0.sent
    ensures write.Failed? ==> Ask(c, name, write, heard) == (c.(nextId := c.nextId + 1), Err(WriteFailed(write.cause)))
  {
    hide HearAll;
    HearAllSentGrows(c.nextId, Answer(Asking(c, name), None), heard);
    assert c.(nextId := c.nextId + 1).(sent := c.sent + [Request(c.nextId, Plain(name))]) == Asking(c, name);
  }

  lemma {:induction false} HearAllSentGrows(id: nat, a: Answer, heard: seq<Heard>)
    ensures a.client.sent <= HearAll(id, a, heard).client.sent
    decreases |heard|
  {
    hide Dispatch;
    if heard != [] {
      HearAllSentGrows(id, a, heard[..|heard| - 1]);
      var h := heard[|heard| - 1];
      if h.event.Arrived? && h.event.line.Message? {
        DispatchSentGrows(HearAll(id, a, heard[..|heard| - 1]).client, h.event.line.msg, h.write);
      }
    }
  }

  /** A prompt that times out leaves its id and a deadline behind for the cancel; a prompt
    that ends in any other way leaves neither. */
  lemma PromptLeaves(c: Client, a: PromptCall)
    ensures var r := Prompt(c, a);
            r.result.Some? ==>
              if r.result.value.Err? && (r.result.value.error.IdleTimeout? || r.result.value.error.HardTimeout?) then
                && r.client.lastPromptId == Some(c.nextId) && c.nextId < r.client.nextId
                && r.client.currentHardDeadline.Some? && r.client.currentHardDeadline.value >= a.began + a.maxDuration
              else r.client.lastPromptId == None && r.client.currentHardDeadline == None
  {
    hide Run, StopReasonOf;
    if a.write.Written? {
      var k, s := PromptLoop(c, a), PromptStart(c, a);
      RunKeeps(k, s, a.polls);
      RunFresh(k, s, a.polls, c.nextId + 1);
      RunDeadline(k, s, a.polls);
      StopReasonErrors(Run(k, s, a.polls).outcome);
    }
  }

  /** The recorded deadline never falls behind. */
  lemma {:induction false} RunDeadline(k: Call, t: Turn, polls: seq<Poll>)
    requires t.client.currentHardDeadline == Some(t.hardDeadline)
    ensures var u := Run(k, t, polls);
            u.client.currentHardDeadline == Some(u.hardDeadline) && u.hardDeadline >= t.hardDeadline
    decreases |polls|
  {
    hide Wake;
    if polls != [] {
      RunDeadline(k, t, polls[..|polls| - 1]);
      WakeDeadline(k, Run(k, t, polls[..|polls| - 1]), polls[|polls| - 1]);
    }
  }

  lemma WakeDeadline(k: Call, t: Turn, p: Poll)
    requires t.client.currentHardDeadline == Some(t.hardDeadline)
    ensures var u := Wake(k, t, p);
            u.client.currentHardDeadline == Some(u.hardDeadline) && u.hardDeadline >= t.hardDeadline
  {
    hide OnMessage, SteerBody;
    if CarriesJson(p) {
      MessageDeadline(k, t.(begun := None), p.reader.value.line.msg, p);
    }
  }

  lemma MessageDeadline(k: Call, t: Turn, msg: Json, p: Poll)
    requires t.client.currentHardDeadline == Some(t.hardDeadline)
    ensures var u := OnMessage(k, t, msg, p);
            u.client.currentHardDeadline == Some(u.hardDeadline) && u.hardDeadline >= t.hardDeadline
  {
    hide Dispatch, OnDispatch, OnSteerResponse, IsResponseTo, AgentErrorOf;
    var u := Active(k, t, p.second);
    DispatchKeeps(t.client, msg, p.write);
    DispatchChanges(k, u, msg, p);
    if u.pendingSteer.Some? {
      AnswerDeadline(k, u, msg, p);
    }
  }

  lemma AnswerDeadline(k: Call, t: Turn, msg: Json, p: Poll)
    requires t.pendingSteer.Some? && t.client.currentHardDeadline == Some(t.hardDeadline)
    ensures var u := OnSteerResponse(k, t, msg, p);
            u.client.currentHardDeadline == Some(u.hardDeadline) && u.hardDeadline >= t.hardDeadline
  {
    hide Judge;
  }

  predicate TimedOut(r: Returned) {
    r.result.Some? && r.result.value.Err? && (r.result.value.error.IdleTimeout? || r.result.value.error.HardTimeout?)
  }

  /** A cancel notice has been added to what was written. */
  ghost predicate NoticeGiven(before: seq<Sent>, after: seq<Sent>, sessionId: string) {
    exists i :: |before| <= i < |after| && after[i] == CancelNotice(sessionId)
  }

  /** The drain of this cancel waits for the answer to `prompt`, and for no other, until the
    later of the recorded deadline and thirty seconds. */
  ghost predicate DrainsOn(c: Client, b: CancelCall, released: Client, prompt: nat, p: Poll) {
    var hard := if c.currentHardDeadline.Some? && c.currentHardDeadline.value > b.asked + 30_000
                then c.currentHardDeadline.value else b.asked + 30_000;
    var k := Call(b.sessionId, prompt, 30_000, if hard < b.drained then 0 else hard - b.drained, released.steerInstalled);
    var s := Start(released.(sent := released.sent + [CancelNotice(b.sessionId)]), k, b.waiting, hard);
    var t := Run(k, s, b.polls);
    && Cancel(c, b) == Returned(t.client, if t.outcome.None? then None else Some(Parsed(t.outcome.value)))
    && (t.outcome.None? ==> EndsOn(k, t, p, prompt))
  }

  /** At this poll the loop returns the agent's word exactly on the answer to `prompt`. */
  ghost predicate EndsOn(k: Call, t: Turn, p: Poll, prompt: nat) {
    var u := Wake(k, t, p);
    (u.outcome.Some? && (u.outcome.value.Ok? || u.outcome.value.error.AgentReported?)) <==>
    (Handling(t, p) && CarriesJson(p) && IsResponseTo(p.reader.value.line.msg, prompt))
  }

  /** What a cancel whose writes succeed leaves before it hears anything: the prompt and its
    deadline are taken, a permission still waiting is refused and forgotten, the notice is
    written, and nothing else has changed. */
  lemma CancelBegins(c: Client, b: CancelCall)
    requires c.lastPromptId.Some? && b.replyWrite.Written? && b.noticeWrite.Written? && b.polls == []
    ensures var refused := c.pendingPermission.Some? && !c.permissionResponded;
            var number := if c.permissionsAsked == [] then 0 else |c.permissionsAsked| - 1;
            Cancel(c, b)
              == Returned(c.(lastPromptId := None, currentHardDeadline := None, steerInstalled := false, pendingPermission := None,
                             permissionResponded := c.permissionResponded && c.pendingPermission.None?,
                             sent := c.sent
                                     + (if refused then [PermissionReply(number, c.pendingPermission.value, Decision.Cancelled)] else [])
                                     + [CancelNotice(b.sessionId)]),
                          None)
  {
    if c.pendingPermission.None? || c.permissionResponded {
      assert c.sent + [] == c.sent;
    }
  }

  lemma CancelDrainsOn(c: Client, b: CancelCall, p: Poll)
    requires Sound(c) && c.lastPromptId.Some? && b.replyWrite.Written? && b.noticeWrite.Written?
    ensures exists released :: DrainsOn(c, b, released, c.lastPromptId.value, p)
  {
    hide Run, Wake, InOrder, EndsOn, Sound, ReleasePermission, StopReasonOf;
    var prompt := c.lastPromptId.value;
    var d := c.(lastPromptId := None, currentHardDeadline := None);
    assert d == c.(currentHardDeadline := None).(lastPromptId := None);
    StillSound(c);
    ReleaseWritten(d);
    var released := ReleasePermission(d, b.replyWrite).value;
    var hard := CleanupDeadline(c, b.asked);
    DrainEndsOn(d, released, b, prompt, hard, p);
    assert DrainsOn(c, b, released, prompt, p);
  }

  lemma StillSound(c: Client)
    requires Sound(c)
    ensures Sound(c.(lastPromptId := None, currentHardDeadline := None))
    ensures c.lastPromptId.Some? ==> c.lastPromptId.value < c.nextId
  {
    hide InOrder;
  }

  lemma ReleaseWritten(c: Client)
    ensures ReleasePermission(c, Written).Ok?
  {
  }

  lemma DrainEndsOn(d: Client, released: Client, b: CancelCall, prompt: nat, hard: Time, p: Poll)
    requires Sound(d) && prompt < d.nextId && ReleasePermission(d, b.replyWrite) == Ok(released)
    ensures var k, s := DrainLoop(released, b, prompt, hard), DrainStart(released, b, prompt, hard);
            Run(k, s, b.polls).outcome.None? ==> EndsOn(k, Run(k, s, b.polls), p, prompt)
  {
    hide Run, Wake, InOrder, Sound, ReleasePermission;
    ReleaseSound(d, b.replyWrite);
    ReleaseKeeps(d, b.replyWrite);
    DrainStartSound(released, b, prompt, hard);
    var k, s := DrainLoop(released, b, prompt, hard), DrainStart(released, b, prompt, hard);
    RunSound(k, s, b.polls);
    if Run(k, s, b.polls).outcome.None? {
      OnlyItsOwnAnswerReturns(k, Run(k, s, b.polls), p);
    }
  }

  lemma NoticeBehind(c: Client, b: CancelCall)
    requires Sound(c) && c.lastPromptId.Some? && b.replyWrite.Written? && b.noticeWrite.Written?
    ensures NoticeGiven(c.sent, Cancel(c, b).client.sent, b.sessionId)
  {
    hide Cancel, InOrder;
    CancelSpeaksInOrder(c, b);
    var refusal := if c.pendingPermission.None? then []
                   else [PermissionReply(|c.permissionsAsked| - 1, c.pendingPermission.value, Decision.Cancelled)];
    var said := c.sent + refusal + [CancelNotice(b.sessionId)];
    var sent := Cancel(c, b).client.sent;
    assert said <= sent && |c.sent| <= |said| - 1 && sent[|said| - 1] == said[|said| - 1] == CancelNotice(b.sessionId);
  }

  /** A turn that timed out can be cancelled: a cancel whose writes succeed gives notice, and
    its drain waits for the answer to that turn's prompt. */
  lemma TimedOutTurnIsCancelled(ops: seq<Op>, a: PromptCall, b: CancelCall, p: Poll)
    requires TimedOut(Prompt(Session(ops), a)) && b.replyWrite.Written? && b.noticeWrite.Written?
    ensures NoticeGiven(Prompt(Session(ops), a).client.sent, Cancel(Prompt(Session(ops), a).client, b).client.sent, b.sessionId)
    ensures exists released :: DrainsOn(Prompt(Session(ops), a).client, b, released, Session(ops).nextId, p)
  {
    EverySessionIsSound(ops);
    PromptSound(Session(ops), a);
    PromptLeaves(Session(ops), a);
    hide Prompt, Session, Cancel, Sound, DrainsOn, NoticeGiven;
    NoticeBehind(Prompt(Session(ops), a).client, b);
    CancelDrainsOn(Prompt(Session(ops), a).client, b, p);
  }

  /** The cancel with a grace of its own tells its hard timeout by that grace, and only once
    the clock has passed the end of it. */
  lemma GraceRunsOut(c: Client, a: CancelCall, grace: Time)
    requires Clocked(a.waiting, a.polls)
    ensures var r := CancelWithin(c, a, grace).result;
            && (r.Some? && r.value.Err? ==> !r.value.error.HardTimeout?)
            && (r.Some? && r.value.Err? && r.value.error.CancelDrainTimeout? ==>
                  r.value.error.grace == grace && exists i | 0 <= i < |a.polls| :: a.polls[i].second >= a.asked + grace)
  {
    hide CancelUntil;
    DrainRanOutAfter(c.(currentHardDeadline := None), a, a.asked + grace);
    NoDrainTimeout(c.(currentHardDeadline := None), a, a.asked + grace);
  }

  lemma NoDrainTimeout(c: Client, a: CancelCall, hard: Time)
    ensures var r := CancelUntil(c, a, hard).result;
            r.Some? && r.value.Err? ==> !r.value.error.CancelDrainTimeout?
  {
    hide Run, ReleasePermission, StopReasonOf;
    var d := c.(lastPromptId := None);
    ReleaseErrors(d, a.replyWrite);
    if c.lastPromptId.Some? && ReleasePermission(d, a.replyWrite).Ok? && a.noticeWrite.Written? {
      var released := ReleasePermission(d, a.replyWrite).value;
      var k, s := DrainLoop(released, a, c.lastPromptId.value, hard), DrainStart(released, a, c.lastPromptId.value, hard);
      RunNeverDrains(k, s, a.polls);
      StopReasonErrors(Run(k, s, a.polls).outcome);
    }
  }

  lemma {:induction false} RunNeverDrains(k: Call, t: Turn, polls: seq<Poll>)
    requires t.outcome.None?
    ensures var outcome := Run(k, t, polls).outcome;
            outcome.Some? && outcome.value.Err? ==> !outcome.value.error.CancelDrainTimeout?
    decreases |polls|
  {
    hide Wake;
    if polls != [] {
      RunNeverDrains(k, t, polls[..|polls| - 1]);
      WakeNeverDrains(k, Run(k, t, polls[..|polls| - 1]), polls[|polls| - 1]);
    }
  }

  lemma WakeNeverDrains(k: Call, t: Turn, p: Poll)
    ensures var outcome := Wake(k, t, p).outcome;
            t.outcome.None? && outcome.Some? && outcome.value.Err? ==> !outcome.value.error.CancelDrainTimeout?
    ensures t.outcome.Some? ==> Wake(k, t, p) == t
  {
    hide OnMessage, OnSteer;
    if CarriesJson(p) && t.outcome.None? {
      MessageNeverDrains(k, t.(begun := None), p.reader.value.line.msg, p);
    }
    if p.steer.Some? {
      SteerKeepsDeadlines(k, t.(begun := None), p.steer.value, p);
    }
  }

  lemma MessageNeverDrains(k: Call, t: Turn, msg: Json, p: Poll)
    requires t.outcome.None?
    ensures var outcome := OnMessage(k, t, msg, p).outcome;
            outcome.Some? && outcome.value.Err? ==> !outcome.value.error.CancelDrainTimeout?
  {
    hide Dispatch, FrameFails, Judge, IsResponseTo;
    DispatchFailsExactly(t.client, msg, p.write);
  }

  function NameOf(reason: StopReason): string {
    match reason
    case EndTurn => "end_turn"
    case TurnCancelled => "cancelled"
    case MaxTokens => "max_tokens"
    case MaxTurnRequests => "max_turn_requests"
    case Refusal => "refusal"
  }

  /** The same letter, an ASCII capital standing for its small form. */
  predicate SameLetter(c: char, small: char) {
    c == small || ('A' <= c <= 'Z' && 'a' <= small <= 'z' && c as int - 'A' as int == small as int - 'a' as int)
  }

  /** A prompt's answer gives a stop reason exactly if it names it, in whatever case. */
  lemma StopReasonNamed(result: Json, reason: StopReason)
    ensures StopReasonOf(result) == Ok(reason) <==>
            match result.Get("stopReason")
            case Some(Str(raw)) => |raw| == |NameOf(reason)| && forall i | 0 <= i < |raw| :: SameLetter(raw[i], NameOf(reason)[i])
            case _ => false
  {
    hide StopReasonOf, NameOf, SameLetter;
    match result.Get("stopReason")
    case Some(Str(raw)) =>
      ReasonByName(result, raw, reason);
      NameIsSmall(reason);
      LowerIs(raw, NameOf(reason));
    case _ =>
      NoReason(result);
  }

  lemma NoReason(result: Json)
    requires result.Get("stopReason").Some? ==> !result.Get("stopReason").value.Str?
    ensures StopReasonOf(result).Err?
  {
  }

  lemma NameIsSmall(reason: StopReason)
    ensures forall i | 0 <= i < |NameOf(reason)| :: !('A' <= NameOf(reason)[i] <= 'Z')
  {
  }

  lemma ReasonByName(result: Json, raw: string, reason: StopReason)
    requires result.Get("stopReason") == Some(Str(raw))
    ensures StopReasonOf(result) == Ok(reason) <==> Lower(raw) == NameOf(reason)
  {
    hide Lower;
    NamesDiffer(reason, EndTurn);
    NamesDiffer(reason, TurnCancelled);
    NamesDiffer(reason, MaxTokens);
    NamesDiffer(reason, MaxTurnRequests);
    NamesDiffer(reason, Refusal);
  }

  lemma LowerIs(raw: string, name: string)
    requires forall i | 0 <= i < |name| :: !('A' <= name[i] <= 'Z')
    ensures Lower(raw) == name <==> |raw| == |name| && forall i | 0 <= i < |raw| :: SameLetter(raw[i], name[i])
  {
    if |raw| == |name| && forall i | 0 <= i < |raw| :: SameLetter(raw[i], name[i]) {
      forall i | 0 <= i < |raw| ensures Lower(raw)[i] == name[i] {
        assert SameLetter(raw[i], name[i]);
      }
    }
    if Lower(raw) == name {
      forall i | 0 <= i < |raw| ensures SameLetter(raw[i], name[i]) {
        assert Lower(raw)[i] == name[i];
      }
    }
  }

  lemma NamesDiffer(a: StopReason, b: StopReason)
    ensures NameOf(a) == NameOf(b) <==> a == b
  {
    assert |NameOf(a)| == |NameOf(b)| ==> a == b;
  }

  /** Steering counts as supported after the handshake exactly if the agent said `true`, and
    a failed handshake leaves the matter as it was. */
  lemma HandshakeLearns(c: Client, write: WriteOutcome, heard: seq<Heard>)
    ensures var (d, r) := Initialize(c, write, heard);
            && (r.Ok? ==> (d.steeringSupported <==> r.value.At("_meta").At("steering").Get("supported") == Some(Bool(true))))
            && (r.Err? ==> d.steeringSupported == c.steeringSupported)
            && (r == Ask(c, "initialize", write, heard).1)
  {
    hide Ask;
    AskKeepsSteering(c, "initialize", write, heard);
  }

  lemma AskKeepsSteering(c: Client, name: string, write: WriteOutcome, heard: seq<Heard>)
    ensures Ask(c, name, write, heard).0.steeringSupported == c.steeringSupported
  {
    hide HearAll;
    HearAllKeepsSteering(c.nextId, Answer(Asking(c, name), None), heard);
    assert c.(nextId := c.nextId + 1).(sent := c.sent + [Request(c.nextId, Plain(name))]) == Asking(c, name);
  }

  lemma {:induction false} HearAllKeepsSteering(id: nat, a: Answer, heard: seq<Heard>)
    ensures HearAll(id, a, heard).client.steeringSupported == a.client.steeringSupported
    decreases |heard|
  {
    hide Dispatch;
    if heard != [] {
      HearAllKeepsSteering(id, a, heard[..|heard| - 1]);
      var h := heard[|heard| - 1];
      if h.event.Arrived? && h.event.line.Message? {
        DispatchKeeps(HearAll(id, a, heard[..|heard| - 1]).client, h.event.line.msg, h.write);
      }
    }
  }
}
