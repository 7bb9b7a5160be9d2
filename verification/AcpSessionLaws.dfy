/** What holds of the client between calls, over whole sessions. */
module AcpSessionLaws {
  import opened Wrappers
  import opened JsonValues
  import opened AcpTurn
  import opened AcpTurnLaws
  import opened AcpSession

  // ---------------------------------------------------------------- ids and permissions

  /** Going back over everything written, request ids and the numbers of the
    permission requests replied to only get smaller, from below the two bounds, and
    each reply carries the id with which the request of its number was asked. */
  predicate InOrder(sent: seq<Sent>, asked: seq<Json>, nextId: nat, nextReply: nat)
    decreases |sent|
  {
    sent == [] ||
    var before := sent[..|sent| - 1];
    match sent[|sent| - 1]
    case Request(id, _) => id < nextId && InOrder(before, asked, id, nextReply)
    case PermissionReply(request, rpcId, _) =>
      request < nextReply && request < |asked| && asked[request] == rpcId && InOrder(before, asked, nextId, request)
    case _ => InOrder(before, asked, nextId, nextReply)
  }

  lemma {:induction false} InOrderWeakens(sent: seq<Sent>, asked: seq<Json>, nextId: nat, nextReply: nat,
                                          later: seq<Json>, laterId: nat, laterReply: nat)
    requires InOrder(sent, asked, nextId, nextReply) && asked <= later && nextId <= laterId && nextReply <= laterReply
    ensures InOrder(sent, later, laterId, laterReply)
    decreases |sent|
  {
    if sent == [] {
    } else {
      var before := sent[..|sent| - 1];
      match sent[|sent| - 1]
      case Request(id, _) => InOrderWeakens(before, asked, id, nextReply, later, id, laterReply);
      case PermissionReply(request, _, _) => InOrderWeakens(before, asked, nextId, request, later, laterId, request);
      case _ => InOrderWeakens(before, asked, nextId, nextReply, later, laterId, laterReply);
    }
  }

  lemma Appends(sent: seq<Sent>, line: Sent, asked: seq<Json>, nextId: nat, nextReply: nat)
    requires InOrder(sent, asked, nextId, nextReply)
    ensures !line.Request? && !line.PermissionReply? ==> InOrder(sent + [line], asked, nextId, nextReply)
    ensures line.Request? && line.id == nextId ==> InOrder(sent + [line], asked, nextId + 1, nextReply)
    ensures line.PermissionReply? && line.request == nextReply < |asked| && line.rpcId == asked[nextReply] ==>
              InOrder(sent + [line], asked, nextId, nextReply + 1)
  {
    assert (sent + [line])[..|sent|] == sent;
  }

  lemma {:induction false} InOrderAt(sent: seq<Sent>, asked: seq<Json>, nextId: nat, nextReply: nat, i: nat)
    requires InOrder(sent, asked, nextId, nextReply) && i < |sent|
    ensures sent[i].Request? ==> sent[i].id < nextId
    ensures sent[i].PermissionReply? ==>
              sent[i].request < nextReply && sent[i].request < |asked| && sent[i].rpcId == asked[sent[i].request]
    decreases |sent|
  {
    var n := |sent| - 1;
    if i < n {
      var before := sent[..n];
      assert before[i] == sent[i];
      match sent[n]
      case Request(id, _) => InOrderAt(before, asked, id, nextReply, i);
      case PermissionReply(request, _, _) => InOrderAt(before, asked, nextId, request, i);
      case _ => InOrderAt(before, asked, nextId, nextReply, i);
    }
  }

  lemma {:induction false} InOrderPair(sent: seq<Sent>, asked: seq<Json>, nextId: nat, nextReply: nat, i: nat, j: nat)
    requires InOrder(sent, asked, nextId, nextReply) && i < j < |sent|
    ensures sent[i].Request? && sent[j].Request? ==> sent[i].id < sent[j].id
    ensures sent[i].PermissionReply? && sent[j].PermissionReply? ==> sent[i].request < sent[j].request
    decreases |sent|
  {
    var n := |sent| - 1;
    var before := sent[..n];
    assert before[i] == sent[i] && (j < n ==> before[j] == sent[j]);
    var id := if sent[n].Request? then sent[n].id else nextId;
    var request := if sent[n].PermissionReply? then sent[n].request else nextReply;
    assert InOrder(before, asked, id, request);
    hide InOrder;
    if j < n {
      InOrderPair(before, asked, id, request, i, j);
    } else {
      InOrderAt(before, asked, id, request, i);
    }
  }

  /** What the order means: ids and replied requests are bounded and never repeat, and a
    reply goes to the request whose number it has. */
  lemma InOrderMeans(sent: seq<Sent>, asked: seq<Json>, nextId: nat, nextReply: nat)
    requires InOrder(sent, asked, nextId, nextReply)
    ensures forall i | 0 <= i < |sent| && sent[i].PermissionReply? ::
              sent[i].request < |asked| && sent[i].rpcId == asked[sent[i].request]
    ensures forall i | 0 <= i < |sent| :: (sent[i].Request? ==> sent[i].id < nextId)
                                       && (sent[i].PermissionReply? ==> sent[i].request < nextReply)
    ensures forall i, j | 0 <= i < j < |sent| ::
              && (sent[i].Request? && sent[j].Request? ==> sent[i].id < sent[j].id)
              && (sent[i].PermissionReply? && sent[j].PermissionReply? ==> sent[i].request < sent[j].request)
  {
    hide InOrder;
    forall i | 0 <= i < |sent|
      ensures sent[i].Request? ==> sent[i].id < nextId
      ensures sent[i].PermissionReply? ==>
                sent[i].request < nextReply && sent[i].request < |asked| && sent[i].rpcId == asked[sent[i].request]
    {
      InOrderAt(sent, asked, nextId, nextReply, i);
    }
    forall i, j | 0 <= i < j < |sent|
      ensures sent[i].Request? && sent[j].Request? ==> sent[i].id < sent[j].id
      ensures sent[i].PermissionReply? && sent[j].PermissionReply? ==> sent[i].request < sent[j].request
    {
      InOrderPair(sent, asked, nextId, nextReply, i, j);
    }
  }

  function Unreplied(c: Client): nat {
    if c.pendingPermission.Some? && c.permissionsAsked != [] then |c.permissionsAsked| - 1 else |c.permissionsAsked|
  }

  /** A pending permission is the last to have arrived and has had no reply. */
  ghost predicate Sound(c: Client) {
    && InOrder(c.sent, c.permissionsAsked, c.nextId, Unreplied(c))
    && (c.pendingPermission.Some? ==>
          c.permissionsAsked != [] && c.pendingPermission.value == c.permissionsAsked[|c.permissionsAsked| - 1] && !c.permissionResponded)
    && (c.lastPromptId.Some? ==> c.lastPromptId.value < c.nextId)
  }

  ghost predicate TurnSound(k: Call, t: Turn) {
    && Sound(t.client)
    && k.expectedId < t.client.nextId
    && (t.pendingSteer.Some? ==> k.expectedId < t.pendingSteer.value.id < t.client.nextId)
  }

  lemma ArrivalSound(c: Client, id: Json)
    requires Sound(c)
    ensures Sound(c.(pendingPermission := Some(id), permissionResponded := false, permissionsAsked := c.permissionsAsked + [id]))
  {
    hide InOrder;
    InOrderWeakens(c.sent, c.permissionsAsked, c.nextId, Unreplied(c), c.permissionsAsked + [id], c.nextId, |c.permissionsAsked|);
  }

  lemma ReplySound(c: Client, decision: Decision)
    requires Sound(c) && c.pendingPermission.Some?
    ensures Sound(c.(pendingPermission := None, permissionResponded := true,
                     sent := c.sent + [PermissionReply(|c.permissionsAsked| - 1, c.pendingPermission.value, decision)]))
  {
    hide InOrder;
    Appends(c.sent, PermissionReply(|c.permissionsAsked| - 1, c.pendingPermission.value, decision), c.permissionsAsked, c.nextId, Unreplied(c));
  }

  lemma PermissionSound(c: Client, msg: Json, write: WriteOutcome)
    requires Sound(c)
    ensures Sound(HandlePermission(c, msg, write).0)
  {
    hide Sound, Choose;
    if msg.Get("id").Some? {
      var id := msg.Get("id").value;
      var options := msg.At("params").At("options");
      ArrivalSound(c, id);
      if options.Arr? && Choose(options.items).Ok? {
        ReplySound(c.(pendingPermission := Some(id), permissionResponded := false, permissionsAsked := c.permissionsAsked + [id]),
                   Selected(Choose(options.items).value));
      }
    }
  }

  lemma RunIdSound(c: Client, run: Option<string>)
    requires Sound(c)
    ensures Sound(c.(activeRunId := run))
  {
    hide InOrder;
  }

  lemma UpdateSound(c: Client, msg: Json)
    requires Sound(c)
    ensures Sound(HandleUpdate(c, msg).0)
  {
    hide Sound, StringField;
    RunIdSound(c, HandleUpdate(c, msg).0.activeRunId);
  }

  lemma DispatchSound(c: Client, msg: Json, write: WriteOutcome)
    requires Sound(c)
    ensures Sound(Dispatch(c, msg, write).client)
  {
    hide InOrder, Choose, HandlePermission, HandleUpdate;
    var name := StringField(msg, "method");
    if name == Some(UPDATE) {
      UpdateSound(c, msg);
    } else if name == Some(USAGE_UPDATE) {
    } else if name == Some(REQUEST_PERMISSION) {
      PermissionSound(c, msg, write);
    } else if name.Some? && msg.Get("id").Some? && write.Written? {
      Appends(c.sent, MethodNotFound(msg.Get("id").value, name.value), c.permissionsAsked, c.nextId, Unreplied(c));
    }
  }

  lemma DispatchKeeps(c: Client, msg: Json, write: WriteOutcome)
    ensures var d := Dispatch(c, msg, write).client;
            && d.nextId == c.nextId && d.lastPromptId == c.lastPromptId
            && d.currentHardDeadline == c.currentHardDeadline && d.steerInstalled == c.steerInstalled
            && d.steeringSupported == c.steeringSupported
  {
    hide HandlePermission, HandleUpdate, StringField;
    PermissionKeeps(c, msg, write);
    UpdateKeeps(c, msg);
  }

  lemma UpdateKeeps(c: Client, msg: Json)
    ensures var d := HandleUpdate(c, msg).0;
            && d.nextId == c.nextId && d.lastPromptId == c.lastPromptId
            && d.currentHardDeadline == c.currentHardDeadline && d.steerInstalled == c.steerInstalled
            && d.steeringSupported == c.steeringSupported
  {
  }

  lemma PermissionKeeps(c: Client, msg: Json, write: WriteOutcome)
    ensures var d := HandlePermission(c, msg, write).0;
            && d.nextId == c.nextId && d.lastPromptId == c.lastPromptId
            && d.currentHardDeadline == c.currentHardDeadline && d.steerInstalled == c.steerInstalled
            && d.steeringSupported == c.steeringSupported
  {
    hide Choose;
  }

  lemma RequestSound(c: Client, body: Body)
    requires Sound(c)
    ensures Sound(c.(nextId := c.nextId + 1))
    ensures Sound(c.(nextId := c.nextId + 1, sent := c.sent + [Request(c.nextId, body)]))
  {
    hide InOrder;
    InOrderWeakens(c.sent, c.permissionsAsked, c.nextId, Unreplied(c), c.permissionsAsked, c.nextId + 1, Unreplied(c));
    Appends(c.sent, Request(c.nextId, body), c.permissionsAsked, c.nextId, Unreplied(c));
  }

  lemma SteerSound(k: Call, t: Turn, request: SteerRequest, p: Poll)
    requires TurnSound(k, t) && t.pendingSteer.None?
    ensures TurnSound(k, OnSteer(k, t, request, p))
  {
    hide Sound, SteerBody;
    var body := SteerBody(k, t.client, request);
    RequestSound(t.client, if body.Some? then body.value.1 else Plain(""));
  }

  /** A frame changes the client through dispatch, or else in its recorded deadline only,
    and puts no steer in flight. */
  lemma MessageChanges(k: Call, t: Turn, msg: Json, p: Poll)
    ensures var u := OnMessage(k, t, msg, p);
            && (u.client == Dispatch(t.client, msg, p.write).client
                || u.client == t.client.(currentHardDeadline := u.client.currentHardDeadline))
            && (u.pendingSteer.None? || u.pendingSteer == t.pendingSteer)
  {
    hide Dispatch, OnDispatch, OnSteerResponse, IsResponseTo, AgentErrorOf;
    var u := Active(k, t, p.second);
    DispatchChanges(k, u, msg, p);
    if u.pendingSteer.Some? {
      SteerResponseChanges(k, u, msg, p);
    }
  }

  lemma DispatchChanges(k: Call, t: Turn, msg: Json, p: Poll)
    ensures var u := OnDispatch(k, t, msg, p);
            && u.client == Dispatch(t.client, msg, p.write).client && u.pendingSteer == t.pendingSteer
            && u.taken == t.taken && u.acks == t.acks && u.hardDeadline == t.hardDeadline
  {
    hide Dispatch;
  }

  lemma SteerResponseChanges(k: Call, t: Turn, msg: Json, p: Poll)
    requires t.pendingSteer.Some?
    ensures var u := OnSteerResponse(k, t, msg, p);
            && u.client == t.client.(currentHardDeadline := u.client.currentHardDeadline) && u.pendingSteer.None?
            && (t.client.currentHardDeadline.Some? ==> u.client.currentHardDeadline.Some?)
  {
    hide Judge;
  }

  lemma DeadlineSound(c: Client, deadline: Option<Time>)
    requires Sound(c)
    ensures Sound(c.(currentHardDeadline := deadline))
  {
    hide InOrder;
  }

  lemma MessageSound(k: Call, t: Turn, msg: Json, p: Poll)
    requires TurnSound(k, t)
    ensures TurnSound(k, OnMessage(k, t, msg, p))
  {
    hide Sound, Dispatch, OnMessage;
    MessageChanges(k, t, msg, p);
    DispatchSound(t.client, msg, p.write);
    DispatchKeeps(t.client, msg, p.write);
    DeadlineSound(t.client, OnMessage(k, t, msg, p).client.currentHardDeadline);
  }

  lemma FinishKeeps(t: Turn, outcome: Outcome)
    ensures Finish(t, outcome) == t.(acks := Finish(t, outcome).acks, pendingSteer := None, outcome := Some(outcome))
  {
  }

  lemma WakeSound(k: Call, t: Turn, p: Poll)
    requires TurnSound(k, t)
    ensures TurnSound(k, Wake(k, t, p))
  {
    hide InOrder, OnMessage, OnSteer;
    if t.outcome.None? {
      var u := t.(begun := None);
      if t.begun.None? && p.first >= Nearer(t) {
        FinishKeeps(t, TimeOut(k, t, p.second).outcome.value);
      } else if p.reader.Some? {
        match p.reader.value
        case EndOfStream => FinishKeeps(u, Err(AgentExited));
        case Oversized => FinishKeeps(u, Err(LineTooLong));
        case Broken => FinishKeeps(u, Err(ReadFailed));
        case Arrived(Message(msg)) => MessageSound(k, u, msg, p);
        case Arrived(_) =>
      } else if t.pendingSteer.None? && k.receiver && p.steer.Some? {
        SteerSound(k, u, p.steer.value, p);
      } else if p.second >= Nearer(t) {
        FinishKeeps(u, TimeOut(k, u, p.third).outcome.value);
      }
    }
  }

  /** A wake-up leaves the record of the prompt alone and never erases its deadline;
    without a receiver nothing is ever taken, in flight or acknowledged, and no
    deadline moves. */
  lemma WakeKeeps(k: Call, t: Turn, p: Poll)
    ensures var u := Wake(k, t, p);
            && u.client.lastPromptId == t.client.lastPromptId
            && (t.client.currentHardDeadline.Some? ==> u.client.currentHardDeadline.Some?)
    ensures var u := Wake(k, t, p);
            !k.receiver && t.pendingSteer.None? ==>
              && u.pendingSteer.None? && u.taken == t.taken && u.acks == t.acks
              && u.hardDeadline == t.hardDeadline
              && u.client.currentHardDeadline == t.client.currentHardDeadline
              && u.client.nextId == t.client.nextId
  {
    hide OnMessage, SteerBody;
    if CarriesJson(p) {
      MessageKeeps(k, t.(begun := None), p.reader.value.line.msg, p);
    }
  }

  lemma MessageKeeps(k: Call, t: Turn, msg: Json, p: Poll)
    ensures var u := OnMessage(k, t, msg, p);
            && u.client.lastPromptId == t.client.lastPromptId
            && (t.client.currentHardDeadline.Some? ==> u.client.currentHardDeadline.Some?)
    ensures var u := OnMessage(k, t, msg, p);
            t.pendingSteer.None? ==>
              && u.pendingSteer.None? && u.taken == t.taken && u.acks == t.acks && u.hardDeadline == t.hardDeadline
              && u.client.currentHardDeadline == t.client.currentHardDeadline && u.client.nextId == t.client.nextId
  {
    hide Dispatch, OnDispatch, OnSteerResponse, IsResponseTo, AgentErrorOf;
    var u := Active(k, t, p.second);
    DispatchKeeps(t.client, msg, p.write);
    DispatchChanges(k, u, msg, p);
    if u.pendingSteer.Some? {
      SteerResponseChanges(k, u, msg, p);
    }
  }

  lemma {:induction false} RunSound(k: Call, t: Turn, polls: seq<Poll>)
    requires TurnSound(k, t)
    ensures TurnSound(k, Run(k, t, polls))
  {
    hide Wake, Sound;
    if polls == [] {
    } else {
      RunSound(k, t, polls[..|polls| - 1]);
      WakeSound(k, Run(k, t, polls[..|polls| - 1]), polls[|polls| - 1]);
    }
  }

  lemma {:induction false} HearAllSound(id: nat, a: Answer, heard: seq<Heard>)
    requires Sound(a.client)
    ensures Sound(HearAll(id, a, heard).client)
    ensures HearAll(id, a, heard).client.nextId == a.client.nextId
    ensures HearAll(id, a, heard).client.lastPromptId == a.client.lastPromptId
    ensures HearAll(id, a, heard).client.currentHardDeadline == a.client.currentHardDeadline
    ensures HearAll(id, a, heard).client.steerInstalled == a.client.steerInstalled
  {
    hide Dispatch, Sound;
    if heard == [] {
    } else {
      HearAllSound(id, a, heard[..|heard| - 1]);
      var b := HearAll(id, a, heard[..|heard| - 1]);
      var h := heard[|heard| - 1];
      if h.event.Arrived? && h.event.line.Message? {
        DispatchSound(b.client, h.event.line.msg, h.write);
        DispatchKeeps(b.client, h.event.line.msg, h.write);
      }
    }
  }

  lemma AskSound(c: Client, name: string, write: WriteOutcome, heard: seq<Heard>)
    requires Sound(c)
    ensures var d := Ask(c, name, write, heard).0;
            && Sound(d) && d.lastPromptId == c.lastPromptId
            && d.currentHardDeadline == c.currentHardDeadline && d.steerInstalled == c.steerInstalled
  {
    hide Run, HearAll, InOrder;
    InOrderWeakens(c.sent, c.permissionsAsked, c.nextId, Unreplied(c), c.permissionsAsked, c.nextId + 1, Unreplied(c));
    if write.Written? {
      Appends(c.sent, Request(c.nextId, Plain(name)), c.permissionsAsked, c.nextId, Unreplied(c));
      HearAllSound(c.nextId, Answer(c.(nextId := c.nextId + 1, sent := c.sent + [Request(c.nextId, Plain(name))]), None), heard);
    }
  }

  lemma PromptStartSound(c: Client, a: PromptCall)
    requires Sound(c)
    ensures TurnSound(PromptLoop(c, a), PromptStart(c, a))
  {
    hide InOrder;
    Appends(c.sent, Request(c.nextId, PromptTurn(a.sessionId, a.blocks)), c.permissionsAsked, c.nextId, Unreplied(c));
  }

  lemma ReleaseSound(c: Client, write: WriteOutcome)
    requires Sound(c)
    ensures ReleasePermission(c, write).Ok? ==>
              Sound(ReleasePermission(c, write).value)
  {
    hide InOrder;
    if c.pendingPermission.Some? {
      Appends(c.sent, PermissionReply(|c.permissionsAsked| - 1, c.pendingPermission.value, Cancelled), c.permissionsAsked, c.nextId, Unreplied(c));
    }
  }

  lemma ReleaseKeeps(c: Client, write: WriteOutcome)
    ensures var r := ReleasePermission(c, write);
            r.Ok? ==> && r.value.lastPromptId == c.lastPromptId && r.value.steerInstalled == c.steerInstalled
                      && r.value.currentHardDeadline == c.currentHardDeadline && r.value.nextId == c.nextId
  {
  }

  lemma DrainStartSound(c: Client, a: CancelCall, prompt: nat, hard: Time)
    requires Sound(c) && prompt < c.nextId
    ensures TurnSound(DrainLoop(c, a, prompt, hard), DrainStart(c, a, prompt, hard))
  {
    hide InOrder;
    Appends(c.sent, CancelNotice(a.sessionId), c.permissionsAsked, c.nextId, Unreplied(c));
  }

  lemma NotifySound(c: Client, sessionId: string, write: WriteOutcome)
    requires Sound(c)
    ensures var d := NotifyCancel(c, sessionId, write).0;
            && Sound(d) && d == c.(sent := d.sent)
  {
    hide InOrder;
    Appends(c.sent, CancelNotice(sessionId), c.permissionsAsked, c.nextId, Unreplied(c));
  }

  lemma PromptSound(c: Client, a: PromptCall)
    requires Sound(c)
    ensures Sound(Prompt(c, a).client)
  {
    hide Run, HearAll, InOrder;
    InOrderWeakens(c.sent, c.permissionsAsked, c.nextId, Unreplied(c), c.permissionsAsked, c.nextId + 1, Unreplied(c));
    if a.write.Written? {
      PromptStartSound(c, a);
      RunSound(PromptLoop(c, a), PromptStart(c, a), a.polls);
    }
  }

  lemma CancelSound(c: Client, a: CancelCall, hard: Time)
    requires Sound(c)
    ensures Sound(CancelUntil(c, a, hard).client)
  {
    hide Run, InOrder, ReleasePermission;
    if c.lastPromptId.Some? {
      var d := c.(lastPromptId := None);
      var released := ReleasePermission(d, a.replyWrite);
      ReleaseSound(d, a.replyWrite);
      ReleaseKeeps(d, a.replyWrite);
      if released.Ok? {
        if a.noticeWrite.Written? {
          DrainStartSound(released.value, a, c.lastPromptId.value, hard);
          RunSound(DrainLoop(released.value, a, c.lastPromptId.value, hard),
                   DrainStart(released.value, a, c.lastPromptId.value, hard), a.polls);
        }
      }
    }
  }

  lemma SpawnedIsSound()
    ensures Sound(Session([]))
  {
  }

  lemma ApplySound(c: Client, op: Op)
    requires Sound(c)
    ensures Sound(Apply(c, op))
  {
    hide Ask, Prompt, CancelUntil, InOrder;
    match op
    case DoInitialize(write, heard) => AskSound(c, "initialize", write, heard);
    case DoAsk(name, write, heard) => AskSound(c, name, write, heard);
    case DoPrompt(a) => PromptSound(c, a);
    case DoCancel(a) => CancelSound(c.(currentHardDeadline := None), a, CleanupDeadline(c, a.asked));
    case DoCancelWithin(a, grace) => CancelSound(c.(currentHardDeadline := None), a, a.asked + grace);
    case DoNotifyCancel(sessionId, write) => NotifySound(c, sessionId, write);
    case InstallSteer =>
    case ClearSteer =>
  }

  /** In every session, whatever is called and whatever the agent does: no two
    requests ever share an id, and every permission request gets at most one reply. */
  lemma {:induction false} EverySessionIsSound(ops: seq<Op>)
    ensures Sound(Session(ops))
    decreases |ops|
  {
    hide Apply, Sound;
    if ops == [] {
      SpawnedIsSound();
    } else {
      EverySessionIsSound(ops[..|ops| - 1]);
      ApplySound(Session(ops[..|ops| - 1]), ops[|ops| - 1]);
    }
  }

  // ---------------------------------------------------------------- routing

  /** In a turn begun in any session, at every wake-up, the loop returns the agent's
    value or error exactly on a frame that carries the prompt's own id and no method:
    never on the answer to a steer, nor on a late answer to anything older. */
  lemma TurnReturnsOnlyItsAnswer(ops: seq<Op>, a: PromptCall, p: Poll)
    requires a.write.Written?
    requires Run(PromptLoop(Session(ops), a), PromptStart(Session(ops), a), a.polls).outcome.None?
    ensures var k := PromptLoop(Session(ops), a);
            var t := Run(k, PromptStart(Session(ops), a), a.polls);
            var u := Wake(k, t, p);
            (u.outcome.Some? && (u.outcome.value.Ok? || u.outcome.value.error.AgentReported?)) <==>
            ((t.begun.Some? || p.first < Nearer(t)) && CarriesJson(p)
             && IsResponseTo(p.reader.value.line.msg, Session(ops).nextId))
  {
    EverySessionIsSound(ops);
    var c := Session(ops);
    PromptStartSound(c, a);
    RunSound(PromptLoop(c, a), PromptStart(c, a), a.polls);
    OnlyItsOwnAnswerReturns(PromptLoop(c, a), Run(PromptLoop(c, a), PromptStart(c, a), a.polls), p);
  }

  /** At every wake-up of a turn, the answer to any id used before the turn began, whether its
    request was written or not, only counts as activity. */
  lemma LateAnswerIgnored(ops: seq<Op>, a: PromptCall, p: Poll, id: nat)
    requires a.write.Written? && id < Session(ops).nextId
    requires CarriesJson(p) && IsResponseTo(p.reader.value.line.msg, id)
    ensures var t := Run(PromptLoop(Session(ops), a), PromptStart(Session(ops), a), a.polls);
            t.outcome.None? && (t.begun.Some? || p.first < Nearer(t)) ==>
              Wake(PromptLoop(Session(ops), a), t, p)
                == t.(begun := None, lastActivityAt := p.second, idleDeadline := p.second + a.idleTimeout)
  {
    var c := Session(ops);
    var k := PromptLoop(c, a);
    hide Wake, Session, Run, InOrder;
    EverySessionIsSound(ops);
    PromptStartSound(c, a);
    RunSound(k, PromptStart(c, a), a.polls);
    var t := Run(k, PromptStart(c, a), a.polls);
    if t.outcome.None? && (t.begun.Some? || p.first < Nearer(t)) {
      StrayResponseIgnored(k, t, p, id);
    }
  }

  /** Whatever is in flight in the loop was sent after `floor` requests. */
  predicate Fresh(t: Turn, floor: nat) {
    floor <= t.client.nextId && (t.pendingSteer.Some? ==> floor <= t.pendingSteer.value.id)
  }

  lemma WakeFresh(k: Call, t: Turn, p: Poll, floor: nat)
    requires Fresh(t, floor)
    ensures Fresh(Wake(k, t, p), floor)
  {
    hide OnMessage, SteerBody;
    if CarriesJson(p) {
      MessageFresh(k, t.(begun := None), p.reader.value.line.msg, p, floor);
    }
  }

  lemma MessageFresh(k: Call, t: Turn, msg: Json, p: Poll, floor: nat)
    requires Fresh(t, floor)
    ensures Fresh(OnMessage(k, t, msg, p), floor)
  {
    hide Dispatch, OnMessage;
    MessageChanges(k, t, msg, p);
    DispatchKeeps(t.client, msg, p.write);
  }

  lemma {:induction false} RunFresh(k: Call, t: Turn, polls: seq<Poll>, floor: nat)
    requires Fresh(t, floor)
    ensures Fresh(Run(k, t, polls), floor)
  {
    hide Wake, Fresh;
    if polls != [] {
      RunFresh(k, t, polls[..|polls| - 1], floor);
      WakeFresh(k, Run(k, t, polls[..|polls| - 1]), polls[|polls| - 1], floor);
    }
  }

  /** While a cancelled turn drains, steered or not, the answer to any other request made
    before the drain than its prompt, the turn's steers among them, only counts as
    activity; and without a receiver no other answer counts for more either. */
  lemma DrainIgnoresOtherAnswers(c: Client, a: CancelCall, prompt: nat, hard: Time, p: Poll, id: nat)
    requires id != prompt && (id < c.nextId || !c.steerInstalled)
    requires CarriesJson(p) && IsResponseTo(p.reader.value.line.msg, id)
    ensures var k := DrainLoop(c, a, prompt, hard);
            var t := Run(k, DrainStart(c, a, prompt, hard), a.polls);
            t.outcome.None? && (t.begun.Some? || p.first < Nearer(t)) ==>
              Wake(k, t, p) == t.(begun := None, lastActivityAt := p.second, idleDeadline := p.second + CLEANUP_GRACE)
  {
    var k := DrainLoop(c, a, prompt, hard);
    hide Wake, Run;
    RunKeeps(k, DrainStart(c, a, prompt, hard), a.polls);
    RunFresh(k, DrainStart(c, a, prompt, hard), a.polls, c.nextId);
    var t := Run(k, DrainStart(c, a, prompt, hard), a.polls);
    if t.outcome.None? && (t.begun.Some? || p.first < Nearer(t)) {
      StrayResponseIgnored(k, t, p, id);
    }
  }

  /** In a drain begun in any session, at every wake-up, the loop returns the agent's value
    or error exactly on a frame that carries the cancelled prompt's own id and no method. */
  lemma DrainReturnsOnlyItsAnswer(ops: seq<Op>, a: CancelCall, hard: Time, p: Poll)
    requires var c := Session(ops).(lastPromptId := None, currentHardDeadline := None);
             && Session(ops).lastPromptId.Some? && ReleasePermission(c, a.replyWrite).Ok?
             && var released := ReleasePermission(c, a.replyWrite).value;
             && var prompt := Session(ops).lastPromptId.value;
             Run(DrainLoop(released, a, prompt, hard), DrainStart(released, a, prompt, hard), a.polls).outcome.None?
    ensures var c := Session(ops).(lastPromptId := None, currentHardDeadline := None);
            var released, prompt := ReleasePermission(c, a.replyWrite).value, Session(ops).lastPromptId.value;
            var k := DrainLoop(released, a, prompt, hard);
            var t := Run(k, DrainStart(released, a, prompt, hard), a.polls);
            var u := Wake(k, t, p);
            (u.outcome.Some? && (u.outcome.value.Ok? || u.outcome.value.error.AgentReported?)) <==>
            ((t.begun.Some? || p.first < Nearer(t)) && CarriesJson(p) && IsResponseTo(p.reader.value.line.msg, prompt))
  {
    EverySessionIsSound(ops);
    hide Session, Wake, Run, InOrder;
    var c := Session(ops).(lastPromptId := None, currentHardDeadline := None);
    var released, prompt := ReleasePermission(c, a.replyWrite).value, Session(ops).lastPromptId.value;
    ReleaseSound(c, a.replyWrite);
    ReleaseKeeps(c, a.replyWrite);
    DrainStartSound(released, a, prompt, hard);
    var k := DrainLoop(released, a, prompt, hard);
    RunSound(k, DrainStart(released, a, prompt, hard), a.polls);
    OnlyItsOwnAnswerReturns(k, Run(k, DrainStart(released, a, prompt, hard), a.polls), p);
  }

  /** Frame `i` answers the request, and nothing heard before it ended the wait. */
  ghost predicate AnswersAt(id: nat, c: Client, heard: seq<Heard>, i: int) {
    && 0 <= i < |heard|
    && heard[i].event.Arrived? && heard[i].event.line.Message? && IsResponseTo(heard[i].event.line.msg, id)
    && HearAll(id, Answer(c, None), heard[..i]).outcome.None?
  }

  function AnswerIn(msg: Json): Outcome {
    if msg.Get("error").Some? then Err(AgentErrorOf(msg.Get("error").value)) else Ok(msg.At("result"))
  }

  predicate FromAgent(outcome: Option<Outcome>) {
    outcome.Some? && (outcome.value.Ok? || outcome.value.error.AgentReported?)
  }

  /** A plain request returns the agent's value or error exactly when a frame with its id and
    no method arrives while it waits, and it returns what that frame says. */
  lemma {:induction false} RequestReturnsOnlyItsAnswer(id: nat, c: Client, heard: seq<Heard>)
    ensures FromAgent(HearAll(id, Answer(c, None), heard).outcome) <==> exists i :: AnswersAt(id, c, heard, i)
    ensures forall i | AnswersAt(id, c, heard, i) ::
              HearAll(id, Answer(c, None), heard).outcome == Some(AnswerIn(heard[i].event.line.msg))
    decreases |heard|
  {
    hide Hear, AnswerIn, FromAgent;
    if heard == [] {
      NothingHeard(id, c);
    } else {
      var n := |heard| - 1;
      var before := HearAll(id, Answer(c, None), heard[..n]);
      RequestReturnsOnlyItsAnswer(id, c, heard[..n]);
      HearStep(id, before, heard[n]);
      assert HearAll(id, Answer(c, None), heard) == Hear(id, before, heard[n]);
      hide HearAll;
      forall i | i < n ensures AnswersAt(id, c, heard, i) <==> AnswersAt(id, c, heard[..n], i) {
        if 0 <= i {
          assert heard[..n][..i] == heard[..i];
        }
      }
      assert AnswersAt(id, c, heard, n) <==>
             before.outcome.None? && heard[n].event.Arrived? && heard[n].event.line.Message? && IsResponseTo(heard[n].event.line.msg, id);
      forall i | i > n ensures !AnswersAt(id, c, heard, i) {}
      NoAnswerYet(before);
      hide AnswersAt;
      if exists i :: AnswersAt(id, c, heard[..n], i) {
        var i :| AnswersAt(id, c, heard[..n], i);
        AnswerInside(id, c, heard[..n], i);
        assert AnswersAt(id, c, heard, i);
      }
    }
  }

  lemma NothingHeard(id: nat, c: Client)
    ensures !FromAgent(HearAll(id, Answer(c, None), []).outcome) && forall i :: !AnswersAt(id, c, [], i)
  {
  }

  lemma NoAnswerYet(a: Answer)
    ensures a.outcome.None? ==> !FromAgent(a.outcome)
  {
  }

  lemma AnswerInside(id: nat, c: Client, heard: seq<Heard>, i: int)
    requires AnswersAt(id, c, heard, i)
    ensures 0 <= i < |heard|
  {
  }

  lemma HearStep(id: nat, a: Answer, h: Heard)
    ensures a.outcome.Some? ==> Hear(id, a, h) == a
    ensures a.outcome.None? ==>
              var answers := h.event.Arrived? && h.event.line.Message? && IsResponseTo(h.event.line.msg, id);
              && (FromAgent(Hear(id, a, h).outcome) <==> answers)
              && (answers ==> Hear(id, a, h).outcome == Some(AnswerIn(h.event.line.msg)))
  {
    if h.event.Arrived? && h.event.line.Message? {
      DispatchFailsExactly(a.client, h.event.line.msg, h.write);
    }
    hide Dispatch, FrameFails;
  }

  /** Some frame answers the request while it waits. */
  ghost predicate HearsAnswer(id: nat, c: Client, heard: seq<Heard>) {
    exists i :: AnswersAt(id, c, heard, i)
  }

  /** The client once a plain request has been written. */
  function Asking(c: Client, name: string): Client {
    c.(nextId := c.nextId + 1, sent := c.sent + [Request(c.nextId, Plain(name))])
  }

  lemma AskReturnsAnswer(c: Client, name: string, write: WriteOutcome, heard: seq<Heard>)
    ensures FromAgent(Some(Ask(c, name, write, heard).1)) <==>
            (write.Written? && HearsAnswer(c.nextId, Asking(c, name), heard))
  {
    hide HearAll, AnswersAt;
    RequestReturnsOnlyItsAnswer(c.nextId, Asking(c, name), heard);
    if write.Written? {
      var outcome := HearAll(c.nextId, Answer(Asking(c, name), None), heard).outcome;
      assert c.(nextId := c.nextId + 1).(sent := c.sent + [Request(c.nextId, Plain(name))]) == Asking(c, name);
      assert Ask(c, name, write, heard).1 == if outcome.Some? then outcome.value else Err(RequestTimeout);
    }
  }

  /** In any session a plain request goes out with an id that no request had before, and it
    returns the agent's value or error exactly when a frame with that id answers it. */
  lemma AskReturnsOnlyItsAnswer(ops: seq<Op>, name: string, write: WriteOutcome, heard: seq<Heard>)
    ensures forall i | 0 <= i < |Session(ops).sent| && Session(ops).sent[i].Request? ::
              Session(ops).sent[i].id < Session(ops).nextId
    ensures FromAgent(Some(Ask(Session(ops), name, write, heard).1)) <==>
            (write.Written? && HearsAnswer(Session(ops).nextId, Asking(Session(ops), name), heard))
  {
    hide Session, Ask, FromAgent, HearsAnswer, Asking;
    var c := Session(ops);
    EverySessionIsSound(ops);
    InOrderMeans(c.sent, c.permissionsAsked, c.nextId, Unreplied(c));
    AskReturnsAnswer(c, name, write, heard);
  }

  lemma {:induction false} RunKeeps(k: Call, t: Turn, polls: seq<Poll>)
    ensures var u := Run(k, t, polls);
            && u.client.lastPromptId == t.client.lastPromptId
            && (t.client.currentHardDeadline.Some? ==> u.client.currentHardDeadline.Some?)
    ensures var u := Run(k, t, polls);
            !k.receiver && t.pendingSteer.None? ==>
              && u.pendingSteer.None? && u.taken == t.taken && u.acks == t.acks
              && u.hardDeadline == t.hardDeadline
              && u.client.currentHardDeadline == t.client.currentHardDeadline
              && u.client.nextId == t.client.nextId
  {
    hide Wake;
    if polls == [] {
    } else {
      RunKeeps(k, t, polls[..|polls| - 1]);
      WakeKeeps(k, Run(k, t, polls[..|polls| - 1]), polls[|polls| - 1]);
    }
  }

  /** A cancel, steered or not, gives up on the hard deadline only once the clock has passed both
    the deadline recorded for the turn and thirty seconds of its own. */
  lemma CancelWaitsForTheLaterDeadline(c: Client, a: CancelCall)
    requires Clocked(a.waiting, a.polls)
    ensures var r := Cancel(c, a).result;
            r.Some? && r.value.Err? && r.value.error.HardTimeout? ==>
              exists i | 0 <= i < |a.polls| ::
                && a.polls[i].second >= a.asked + CLEANUP_GRACE
                && (c.currentHardDeadline.Some? ==> a.polls[i].second >= c.currentHardDeadline.value)
  {
    hide CancelUntil;
    DrainRanOutAfter(c.(currentHardDeadline := None), a, CleanupDeadline(c, a.asked));
  }

  lemma DrainRanOutAfter(c: Client, a: CancelCall, hard: Time)
    requires Clocked(a.waiting, a.polls)
    ensures var r := CancelUntil(c, a, hard).result;
            r.Some? && r.value.Err? && r.value.error.HardTimeout? ==> exists i | 0 <= i < |a.polls| :: a.polls[i].second >= hard
  {
    hide Run, Wake, ReleasePermission, Clocked, StopReasonOf;
    var d := c.(lastPromptId := None);
    ReleaseErrors(d, a.replyWrite);
    if c.lastPromptId.Some? && ReleasePermission(d, a.replyWrite).Ok? {
      var released := ReleasePermission(d, a.replyWrite).value;
      var k := DrainLoop(released, a, c.lastPromptId.value, hard);
      var e := released.(sent := released.sent + [CancelNotice(a.sessionId)]);
      assert DrainStart(released, a, c.lastPromptId.value, hard) == Start(e, k, a.waiting, hard);
      RanOutAfter(k, e, a.waiting, hard, a.polls);
      StopReasonErrors(Run(k, Start(e, k, a.waiting, hard), a.polls).outcome);
    }
  }

  lemma ReleaseErrors(c: Client, write: WriteOutcome)
    ensures ReleasePermission(c, write).Err? ==> ReleasePermission(c, write).error.WriteFailed?
  {
  }

  lemma StopReasonErrors(outcome: Option<Outcome>)
    ensures outcome.Some? && outcome.value.Ok? && StopReasonOf(outcome.value.value).Err? ==>
              StopReasonOf(outcome.value.value).error.Protocol?
  {
    hide Lower, StringField;
  }

  /** A loop runs out only once the clock has passed the deadline it was given. */
  lemma RanOutAfter(k: Call, c: Client, now: Time, hard: Time, polls: seq<Poll>)
    requires Clocked(now, polls)
    ensures RanOut(Run(k, Start(c, k, now, hard), polls)) ==> exists i | 0 <= i < |polls| :: polls[i].second >= hard
  {
    hide Run, Wake;
    EveryTimeoutIsReal(k, c, now, hard, polls);
    if RanOut(Run(k, Start(c, k, now, hard), polls)) {
      var i :| 0 <= i < |polls| && Run(k, Start(c, k, now, hard), polls[..i]).hardDeadline <= polls[i].second;
      HardDeadlineOverRuns(k, c, now, hard, polls[..i]);
    }
  }

  // ---------------------------------------------------------------- order on the wire

  lemma WakeSentGrows(k: Call, t: Turn, p: Poll)
    ensures t.client.sent <= Wake(k, t, p).client.sent
  {
    hide OnMessage, SteerBody;
    if CarriesJson(p) {
      MessageSentGrows(k, t.(begun := None), p.reader.value.line.msg, p);
    }
  }

  lemma MessageSentGrows(k: Call, t: Turn, msg: Json, p: Poll)
    ensures t.client.sent <= OnMessage(k, t, msg, p).client.sent
  {
    hide Dispatch, Judge, IsResponseTo, AgentErrorOf;
    DispatchSentGrows(t.client, msg, p.write);
  }

  lemma DispatchSentGrows(c: Client, msg: Json, write: WriteOutcome)
    ensures c.sent <= Dispatch(c, msg, write).client.sent
  {
    hide HandlePermission, HandleUpdate, StringField;
    PermissionSentGrows(c, msg, write);
  }

  lemma PermissionSentGrows(c: Client, msg: Json, write: WriteOutcome)
    ensures c.sent <= HandlePermission(c, msg, write).0.sent
    ensures HandleUpdate(c, msg).0.sent == c.sent
  {
    hide Choose, StringField;
  }

  lemma {:induction false} SentGrows(k: Call, t: Turn, polls: seq<Poll>)
    ensures t.client.sent <= Run(k, t, polls).client.sent
  {
    hide Wake;
    if polls != [] {
      SentGrows(k, t, polls[..|polls| - 1]);
      WakeSentGrows(k, Run(k, t, polls[..|polls| - 1]), polls[|polls| - 1]);
    }
  }

  /** A cancel whose writes succeed first refuses the permission still waiting, if there is
    one, then gives notice, and only then answers anything else. */
  lemma CancelSpeaksInOrder(c: Client, a: CancelCall)
    requires Sound(c) && c.lastPromptId.Some? && a.replyWrite.Written? && a.noticeWrite.Written?
    ensures var refusal := if c.pendingPermission.None? then []
                           else [PermissionReply(|c.permissionsAsked| - 1, c.pendingPermission.value, Decision.Cancelled)];
            c.sent + refusal + [CancelNotice(a.sessionId)] <= Cancel(c, a).client.sent
  {
    hide Run, InOrder;
    var hard := CleanupDeadline(c, a.asked);
    var released := ReleasePermission(c.(currentHardDeadline := None, lastPromptId := None), a.replyWrite).value;
    SentGrows(DrainLoop(released, a, c.lastPromptId.value, hard), DrainStart(released, a, c.lastPromptId.value, hard), a.polls);
  }

  // ---------------------------------------------------------------- bookkeeping

  /** A prompt is in flight exactly when a hard deadline is recorded for it. */
  predicate Booked(c: Client) {
    c.lastPromptId.Some? <==> c.currentHardDeadline.Some?
  }

  lemma PromptBooks(c: Client, a: PromptCall)
    ensures Booked(Prompt(c, a).client)
  {
    hide Run;
    if a.write.Written? {
      RunKeeps(PromptLoop(c, a), PromptStart(c, a), a.polls);
    }
  }

  lemma CancelBooks(c: Client, a: CancelCall, hard: Time)
    requires c.currentHardDeadline.None? && !c.steerInstalled
    ensures Booked(CancelUntil(c, a, hard).client)
  {
    hide Run, ReleasePermission;
    if c.lastPromptId.Some? {
      var released := ReleasePermission(c.(lastPromptId := None), a.replyWrite);
      ReleaseKeeps(c.(lastPromptId := None), a.replyWrite);
      if released.Ok? && a.noticeWrite.Written? {
        RunKeeps(DrainLoop(released.value, a, c.lastPromptId.value, hard),
                 DrainStart(released.value, a, c.lastPromptId.value, hard), a.polls);
      }
    }
  }

  /** No cancel is asked for while a steer receiver is installed. */
  ghost predicate CancelsUnsteered(ops: seq<Op>) {
    forall i | 0 <= i < |ops| && (ops[i].DoCancel? || ops[i].DoCancelWithin?) :: !Session(ops[..i]).steerInstalled
  }

  lemma ApplyBooks(c: Client, op: Op)
    requires Sound(c) && Booked(c) && (op.DoCancel? || op.DoCancelWithin? ==> !c.steerInstalled)
    ensures Booked(Apply(c, op))
  {
    hide Ask, Prompt, CancelUntil, InOrder;
    match op
    case DoInitialize(write, heard) => AskSound(c, "initialize", write, heard);
    case DoAsk(name, write, heard) => AskSound(c, name, write, heard);
    case DoPrompt(a) => PromptBooks(c, a);
    case DoCancel(a) => CancelBooks(c.(currentHardDeadline := None), a, CleanupDeadline(c, a.asked));
    case DoCancelWithin(a, grace) => CancelBooks(c.(currentHardDeadline := None), a, a.asked + grace);
    case DoNotifyCancel(sessionId, write) => NotifySound(c, sessionId, write);
    case InstallSteer =>
    case ClearSteer =>
  }

  lemma {:induction false} EverySessionIsBooked(ops: seq<Op>)
    requires CancelsUnsteered(ops)
    ensures Booked(Session(ops))
    decreases |ops|
  {
    hide Apply, Sound, Booked;
    if ops == [] {
      SpawnedIsBooked();
    } else {
      var n := |ops| - 1;
      forall i | 0 <= i < n ensures ops[..n][..i] == ops[..i] {}
      EverySessionIsBooked(ops[..n]);
      EverySessionIsSound(ops[..n]);
      ApplyBooks(Session(ops[..n]), ops[n]);
    }
  }

  lemma SpawnedIsBooked()
    ensures Booked(Session([]))
  {
  }

  // A cancel while a receiver is installed: the drain may be steered, and then it
  // records a deadline for a prompt that is no longer recorded.

  const RunStarted := Obj(map["method" := Str(UPDATE), "params" := Obj(map["update" := Obj(map[
    "sessionUpdate" := Str("session_info_update"),
    "_meta" := Obj(map["goose" := Obj(map["activeRunId" := Str("run")])])])])])

  function Heard0(time: Time, msg: Json): Poll {
    Poll(time, time, time, Some(Arrived(Message(msg))), None, Written)
  }

  /** A drain in which a run starts, a steer is written and the agent accepts it one
    tick later. */
  function SteeredDrain(c: Client): seq<Poll> {
    [Heard0(0, RunStarted),
     Poll(0, 0, 0, None, Some(SteerRequest([])), Written),
     Heard0(1, Obj(map["id" := Int(c.nextId), "result" := Null]))]
  }

  lemma RunThree(k: Call, t: Turn, p: Poll, q: Poll, r: Poll)
    ensures Run(k, t, [p, q, r]) == Wake(k, Wake(k, Wake(k, t, p), q), r)
  {
    hide Wake;
    assert [p, q, r][..2] == [p, q] && [p, q][..1] == [p] && [p][..0] == [];
    assert Run(k, t, [p]) == Wake(k, t, p);
    assert Run(k, t, [p, q]) == Wake(k, Run(k, t, [p]), q);
  }

  lemma SteeredDrainMisbooks(c: Client, k: Call, hard: Time)
    requires c.lastPromptId.None?
    requires k.receiver && k.expectedId < c.nextId && k.idleTimeout == CLEANUP_GRACE && k.maxDuration == hard
    requires hard >= CLEANUP_GRACE
    ensures !Booked(Run(k, Start(c, k, 0, hard), SteeredDrain(c)).client)
  {
    var polls := SteeredDrain(c);
    var t0 := Start(c, k, 0, hard);
    RunThree(k, t0, polls[0], polls[1], polls[2]);
    assert polls == [polls[0], polls[1], polls[2]];
    var t1 := FirstRun(c, k, hard);
    var t2 := SteerWritten(k, t1, polls[1]);
    DeliveryMisbooks(k, t2, polls[2], c.nextId, hard);
  }

  lemma SteerWritten(k: Call, t: Turn, p: Poll) returns (u: Turn)
    requires t.outcome.None? && t.begun.None? && t.pendingSteer.None? && k.receiver
    requires t.client.activeRunId.Some? && p.first < Nearer(t) && p.reader.None? && p.steer.Some? && p.write.Written?
    ensures u == Wake(k, t, p)
    ensures u.pendingSteer == Some(Pending(t.client.nextId, Goose, p.steer.value))
    ensures u.outcome.None? && u.begun.None? && u.idleDeadline == t.idleDeadline && u.hardDeadline == t.hardDeadline
    ensures u.client.lastPromptId == t.client.lastPromptId
  {
    u := Wake(k, t, p);
  }

  lemma DeliveryMisbooks(k: Call, t: Turn, p: Poll, id: nat, hard: Time)
    requires t.pendingSteer.Some? && t.pendingSteer.value.id == id && t.pendingSteer.value.transport.Goose?
    requires t.outcome.None? && t.begun.None? && p.first < Nearer(t)
    requires t.client.lastPromptId.None? && t.hardDeadline == hard == k.maxDuration && p.third > 0
    requires p.reader == Some(Arrived(Message(Obj(map["id" := Int(id), "result" := Null]))))
    ensures !Booked(Wake(k, t, p).client)
  {
    hide Dispatch;
    WakeKeeps(k, t, p);
    assert IsResponseTo(p.reader.value.line.msg, id);
    assert Wake(k, t, p).client.currentHardDeadline == Some(p.third + hard);
  }

  lemma FirstRun(c: Client, k: Call, hard: Time) returns (t: Turn)
    requires c.lastPromptId.None?
    requires k.idleTimeout == CLEANUP_GRACE && hard >= CLEANUP_GRACE
    ensures t == Wake(k, Start(c, k, 0, hard), Heard0(0, RunStarted))
    ensures t == Start(c.(activeRunId := Some("run")), k, 0, hard)
  {
    t := Wake(k, Start(c, k, 0, hard), Heard0(0, RunStarted));
    var update := RunStarted.At("params").At("update");
    assert StringField(RunStarted, "method") == Some(UPDATE);
    assert StringField(update, "sessionUpdate") == Some("session_info_update");
    assert update.At("_meta").At("goose").Get("activeRunId") == Some(Str("run"));
    assert HandleUpdate(t.client, RunStarted) == (t.client.(activeRunId := Some("run")), false);
  }

  /** After a cancel of either kind the record of prompt and deadline is consistent, whatever
    the agent does, exactly when no steer receiver was installed as the cancel began. */
  lemma CancelBooksIffUnsteered(c: Client)
    requires c.lastPromptId.Some? && c.lastPromptId.value < c.nextId
    ensures (forall a: CancelCall :: Booked(Cancel(c, a).client)) <==> !c.steerInstalled
    ensures (forall a: CancelCall, grace: Time :: Booked(CancelWithin(c, a, grace).client)) <==> !c.steerInstalled
  {
    hide CancelUntil, Booked;
    var d := c.(currentHardDeadline := None);
    if c.steerInstalled {
      var a := CancelCall("s", 0, Written, Written, 0, 0, SteeredDrain(c));
      SteeredCancelMisbooks(c, CleanupDeadline(c, 0));
      SteeredCancelMisbooks(c, CLEANUP_GRACE);
      assert !Booked(Cancel(c, a).client);
      assert !Booked(CancelWithin(c, a, CLEANUP_GRACE).client);
    } else {
      forall a: CancelCall ensures Booked(Cancel(c, a).client) {
        CancelBooks(d, a, CleanupDeadline(c, a.asked));
      }
      forall a: CancelCall, grace: Time ensures Booked(CancelWithin(c, a, grace).client) {
        CancelBooks(d, a, a.asked + grace);
      }
    }
  }

  lemma SteeredCancelMisbooks(c: Client, hard: Time)
    requires c.lastPromptId.Some? && c.lastPromptId.value < c.nextId && c.steerInstalled && hard >= CLEANUP_GRACE
    ensures var a := CancelCall("s", 0, Written, Written, 0, 0, SteeredDrain(c));
            !Booked(CancelUntil(c.(currentHardDeadline := None), a, hard).client)
  {
    hide Booked, Run;
    var prompt := c.lastPromptId.value;
    var a := CancelCall("s", 0, Written, Written, 0, 0, SteeredDrain(c));
    var d := c.(currentHardDeadline := None, lastPromptId := None);
    var released := ReleasePermission(d, Written).value;
    ReleaseKeeps(d, Written);
    var k := DrainLoop(released, a, prompt, hard);
    var e := released.(sent := released.sent + [CancelNotice("s")]);
    SteeredDrainMisbooks(e, k, hard);
    assert SteeredDrain(e) == SteeredDrain(c);
    assert DrainStart(released, a, prompt, hard) == Start(e, k, 0, hard);
    assert CancelUntil(c.(currentHardDeadline := None), a, hard).client == Run(k, Start(e, k, 0, hard), SteeredDrain(c)).client;
  }
}
