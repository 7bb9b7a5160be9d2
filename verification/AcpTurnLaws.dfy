/** What every wake-up of the read loop keeps, and what holds of every run. */
module AcpTurnLaws {
  import opened Wrappers
  import opened JsonValues
  import opened AcpTurn

  // ---------------------------------------------------------------- permission choices

  predicate Offered(options: seq<Json>, kind: string, i: int) {
    0 <= i < |options| && StringField(options[i], "kind") == Some(kind)
  }

  /** The option at `i` is the first of its kind. */
  ghost predicate FirstOf(options: seq<Json>, kind: string, i: int) {
    Offered(options, kind, i) && forall j | 0 <= j < i :: !Offered(options, kind, j)
  }

  lemma {:induction false} SelectsFirst(options: seq<Json>, kind: string) returns (i: int)
    ensures SelectOption(options, kind).Some? ==> FirstOf(options, kind, i) && options[i] == SelectOption(options, kind).value
    ensures SelectOption(options, kind).None? ==> forall j :: !Offered(options, kind, j)
    decreases |options|
  {
    hide StringField;
    i := 0;
    if options != [] && !Offered(options, kind, 0) {
      var k := SelectsFirst(options[1..], kind);
      i := k + 1;
      assert forall j | 1 <= j < |options| :: Offered(options, kind, j) <==> Offered(options[1..], kind, j - 1);
    }
  }

  /** `id` names the first grant for once on offer; with none, the first refusal for once,
    which may have no id of its own. */
  ghost predicate Chosen(options: seq<Json>, id: string) {
    || (exists i :: FirstOf(options, "allow_once", i) && StringField(options[i], "optionId") == Some(id))
    || ((forall i :: !Offered(options, "allow_once", i)) &&
        exists i :: FirstOf(options, "reject_once", i) &&
                    id == (if StringField(options[i], "optionId").Some? then StringField(options[i], "optionId").value else "reject"))
  }

  /** A permission is granted for once if that is on offer, by the first such option, and
    refused for once otherwise; with neither on offer, or a grant without an id, nothing
    is sent. */
  lemma ChoosesExactly(options: seq<Json>, id: string)
    ensures Choose(options) == Ok(id) <==> Chosen(options, id)
  {
    var allow := SelectsFirst(options, "allow_once");
    var reject := SelectsFirst(options, "reject_once");
    hide StringField, SelectOption;
    assert SelectOption(options, "allow_once").Some? ==> forall i | FirstOf(options, "allow_once", i) :: i == allow by {
      OneFirst(options, "allow_once");
    }
    assert SelectOption(options, "reject_once").Some? ==> forall i | FirstOf(options, "reject_once", i) :: i == reject by {
      OneFirst(options, "reject_once");
    }
  }

  lemma OneFirst(options: seq<Json>, kind: string)
    ensures forall i, j | FirstOf(options, kind, i) && FirstOf(options, kind, j) :: i == j
  {
  }

  /** Neither kind is on offer, or the first grant has no id. */
  ghost predicate NoChoice(options: seq<Json>) {
    || ((forall i :: !Offered(options, "allow_once", i)) && forall i :: !Offered(options, "reject_once", i))
    || exists i :: FirstOf(options, "allow_once", i) && StringField(options[i], "optionId").None?
  }

  lemma ChoiceFailsExactly(options: seq<Json>)
    ensures Choose(options).Err? <==> NoChoice(options)
  {
    var allow := SelectsFirst(options, "allow_once");
    var reject := SelectsFirst(options, "reject_once");
    hide StringField, SelectOption;
    OneFirst(options, "allow_once");
  }

  // ---------------------------------------------------------------- failing frames

  /** A permission request that cannot be answered, however well writing goes. */
  ghost predicate Unanswerable(msg: Json) {
    var options := msg.At("params").At("options");
    msg.Get("id").None? || !options.Arr? || NoChoice(options.items)
  }

  /** A frame that ends the call it is met in: a permission request that cannot be answered,
    or a request whose reply, by permission or "method not found", is not written. */
  ghost predicate FrameFails(msg: Json, write: WriteOutcome) {
    var name := StringField(msg, "method");
    name.Some? &&
    if name.value == REQUEST_PERMISSION then Unanswerable(msg) || write.Failed?
    else name.value != UPDATE && name.value != USAGE_UPDATE && msg.Get("id").Some? && write.Failed?
  }

  /** Dispatch fails exactly on such frames, and never with a timeout, an agent's error or
    the end of the stream. */
  lemma DispatchFailsExactly(c: Client, msg: Json, write: WriteOutcome)
    ensures Dispatch(c, msg, write).error.Some? <==> FrameFails(msg, write)
    ensures var error := Dispatch(c, msg, write).error;
            error.Some? ==> error.value.Protocol? || error.value.WriteFailed?
  {
    hide StringField, HandlePermission, HandleUpdate, Unanswerable;
    PermissionFailsExactly(c, msg, write);
  }

  lemma PermissionFailsExactly(c: Client, msg: Json, write: WriteOutcome)
    ensures var error := HandlePermission(c, msg, write).1;
            && (error.Some? <==> Unanswerable(msg) || write.Failed?)
            && (error.Some? ==> error.value.Protocol? || error.value.WriteFailed?)
  {
    var options := msg.At("params").At("options");
    if options.Arr? {
      ChoiceFailsExactly(options.items);
      ChoiceErrors(options.items);
    }
    hide Choose, NoChoice;
  }

  lemma ChoiceErrors(options: seq<Json>)
    ensures Choose(options).Err? ==> Choose(options).error.Protocol?
  {
    hide SelectOption, StringField;
  }

  // ---------------------------------------------------------------- acknowledgements

  function Answered(acks: seq<Acked>): seq<SteerRequest> {
    seq(|acks|, i requires 0 <= i < |acks| => acks[i].request)
  }

  function InFlight(t: Turn): seq<SteerRequest> {
    if t.pendingSteer.Some? then [t.pendingSteer.value.request] else []
  }

  /** Requests are answered one at a time in the order they were taken, and what is
    taken but not answered is exactly the steer in flight. */
  ghost predicate Accounted(t: Turn) {
    Answered(t.acks) + InFlight(t) == t.taken
  }

  /** The poll hands the loop a failing frame that answers neither the call nor the steer in
    flight: the loop returns through one of the two exits that skip the release of a steer. */
  ghost predicate FailsOn(k: Call, t: Turn, p: Poll) {
    && t.outcome.None?
    && (t.begun.Some? || p.first < Nearer(t))
    && p.reader.Some? && p.reader.value.Arrived? && p.reader.value.line.Message?
    && var msg := p.reader.value.line.msg;
    && !(t.pendingSteer.Some? && IsResponseTo(msg, t.pendingSteer.value.id))
    && !IsResponseTo(msg, k.expectedId)
    && FrameFails(msg, p.write)
  }

  lemma AcknowledgeAccounts(t: Turn, request: SteerRequest, ack: SteerAck)
    requires t.pendingSteer.None? && Answered(t.acks) + [request] == t.taken
    ensures Accounted(Acknowledge(t, request, ack))
  {
    assert Answered(t.acks + [Acked(request, ack)]) == Answered(t.acks) + [request];
  }

  lemma FinishAccounts(t: Turn, outcome: Outcome)
    requires Accounted(t)
    ensures Accounted(Finish(t, outcome)) && Finish(t, outcome).pendingSteer.None?
  {
    if t.pendingSteer.Some? {
      AcknowledgeAccounts(t.(pendingSteer := None), t.pendingSteer.value.request, PromptCompletedNeutral);
    }
  }

  lemma SteerResponseAccounts(k: Call, t: Turn, msg: Json, p: Poll)
    requires t.pendingSteer.Some? && Accounted(t)
    ensures Accounted(OnSteerResponse(k, t, msg, p))
    ensures OnSteerResponse(k, t, msg, p).outcome == t.outcome
  {
    var u := t.(pendingSteer := None);
    var request := t.pendingSteer.value.request;
    match Judge(t.pendingSteer.value.transport, msg)
    case Delivered(renews) => AcknowledgeAccounts(if renews then Renew(k, u, p.third) else u, request, Success(k.sessionId));
    case Undelivered(error) => AcknowledgeAccounts(u, request, Rejected(error));
  }

  lemma SteerAccounts(k: Call, t: Turn, request: SteerRequest, p: Poll)
    requires t.pendingSteer.None? && Accounted(t)
    ensures Accounted(OnSteer(k, t, request, p))
    ensures OnSteer(k, t, request, p).outcome == t.outcome
  {
    var u := t.(taken := t.taken + [request]);
    if SteerBody(k, t.client, request).None? {
      AcknowledgeAccounts(u, request, Rejected(ExpectedRunIdMissing));
    } else if p.write.Failed? {
      AcknowledgeAccounts(u.(client := t.client.(nextId := t.client.nextId + 1)), request, Rejected(Transport(p.write.cause)));
    }
  }

  lemma MessageAccounts(k: Call, t: Turn, msg: Json, p: Poll)
    requires Accounted(t) && t.outcome.None?
    ensures Accounted(OnMessage(k, t, msg, p))
    ensures OnMessage(k, t, msg, p).outcome.Some? ==>
              OnMessage(k, t, msg, p).pendingSteer ==
                if !IsResponseTo(msg, k.expectedId) && FrameFails(msg, p.write) then t.pendingSteer else None
    ensures t.pendingSteer.Some? && IsResponseTo(msg, t.pendingSteer.value.id) ==> OnMessage(k, t, msg, p).outcome.None?
    ensures FrameFails(msg, p.write) && !IsResponseTo(msg, k.expectedId)
            && !(t.pendingSteer.Some? && IsResponseTo(msg, t.pendingSteer.value.id)) ==>
              OnMessage(k, t, msg, p).outcome.Some?
  {
    hide Dispatch, Judge, FrameFails;
    DispatchFailsExactly(t.client, msg, p.write);
    var u := Active(k, t, p.second);
    if u.pendingSteer.Some? && IsResponseTo(msg, u.pendingSteer.value.id) {
      SteerResponseAccounts(k, u, msg, p);
    } else if IsResponseTo(msg, k.expectedId) {
      FinishAccounts(u, if msg.Get("error").Some? then Err(AgentErrorOf(msg.Get("error").value)) else Ok(msg.At("result")));
    } else {
      var d := OnDispatch(k, u, msg, p);
      assert d.acks == u.acks && d.pendingSteer == u.pendingSteer && d.taken == u.taken;
    }
  }

  lemma WakeAccounts(k: Call, t: Turn, p: Poll)
    requires Accounted(t)
    ensures Accounted(Wake(k, t, p))
    ensures t.outcome.None? && Wake(k, t, p).outcome.Some? ==>
              Wake(k, t, p).pendingSteer == if FailsOn(k, t, p) then t.pendingSteer else None
    ensures FailsOn(k, t, p) ==> t.outcome.None? && Wake(k, t, p).outcome.Some?
    ensures t.outcome.Some? ==> Wake(k, t, p) == t
  {
    hide FrameFails, OnMessage, OnSteer;
    if t.outcome.None? {
      var u := t.(begun := None);
      if t.begun.None? && p.first >= Nearer(t) {
        FinishAccounts(t, TimeOut(k, t, p.second).outcome.value);
      } else if p.reader.Some? {
        match p.reader.value
        case EndOfStream => FinishAccounts(u, Err(AgentExited));
        case Oversized => FinishAccounts(u, Err(LineTooLong));
        case Broken => FinishAccounts(u, Err(ReadFailed));
        case Arrived(Message(msg)) => MessageAccounts(k, u, msg, p);
        case Arrived(_) =>
      } else if t.pendingSteer.None? && k.receiver && p.steer.Some? {
        SteerAccounts(k, u, p.steer.value, p);
      } else if p.second >= Nearer(t) {
        FinishAccounts(u, TimeOut(k, u, p.third).outcome.value);
      }
    }
  }

  /** Poll `i` of the run makes the loop return without releasing the steer in flight. */
  ghost predicate DropsAt(k: Call, s: Turn, polls: seq<Poll>, i: int) {
    && 0 <= i < |polls|
    && Run(k, s, polls[..i]).pendingSteer.Some?
    && FailsOn(k, Run(k, s, polls[..i]), polls[i])
  }

  lemma DropsInPrefix(k: Call, s: Turn, polls: seq<Poll>, i: int)
    requires polls != [] && i < |polls| - 1
    ensures DropsAt(k, s, polls, i) <==> DropsAt(k, s, polls[..|polls| - 1], i)
  {
    if 0 <= i {
      assert polls[..|polls| - 1][..i] == polls[..i];
    }
  }

  ghost predicate Drops(k: Call, s: Turn, polls: seq<Poll>) {
    exists i :: DropsAt(k, s, polls, i)
  }

  lemma DropsUnfold(k: Call, s: Turn, polls: seq<Poll>)
    requires polls != []
    ensures var u := Run(k, s, polls[..|polls| - 1]);
            Drops(k, s, polls) <==>
              Drops(k, s, polls[..|polls| - 1]) || (u.pendingSteer.Some? && FailsOn(k, u, polls[|polls| - 1]))
  {
    var n := |polls| - 1;
    forall i | i < n ensures DropsAt(k, s, polls, i) <==> DropsAt(k, s, polls[..n], i) {
      DropsInPrefix(k, s, polls, i);
    }
    assert DropsAt(k, s, polls, n) <==>
           Run(k, s, polls[..n]).pendingSteer.Some? && FailsOn(k, Run(k, s, polls[..n]), polls[n]);
  }

  /** Over any run every request taken from the channel is acknowledged exactly once,
    in order, save the steer in flight; and a loop that has returned leaves a steer
    without any acknowledgement exactly if one of its polls was a failing exit met
    with that steer in flight. */
  lemma {:induction false} EverySteerAckedOnce(k: Call, s: Turn, polls: seq<Poll>)
    requires Accounted(s) && s.outcome.None?
    ensures Accounted(Run(k, s, polls))
    ensures Drops(k, s, polls) <==> (Run(k, s, polls).outcome.Some? && Run(k, s, polls).pendingSteer.Some?)
  {
    hide Wake, FailsOn, Accounted;
    if polls == [] {
    } else {
      var n := |polls| - 1;
      EverySteerAckedOnce(k, s, polls[..n]);
      WakeAccounts(k, Run(k, s, polls[..n]), polls[n]);
      DropsUnfold(k, s, polls);
    }
  }

  /** With any transport open, a steer is written, and the agent asks for a permission without
    giving an id: though every write succeeds, the steer is never acknowledged. */
  lemma SteerDropped(k: Call, c: Client, now: Time, hard: Time, request: SteerRequest)
    requires k.receiver && (c.activeRunId.Some? || c.steeringSupported)
    requires k.idleTimeout > 2 && now + 2 < hard
    ensures var polls := [Poll(now + 1, now + 1, now + 1, None, Some(request), Written),
                          Poll(now + 2, now + 2, now + 2, Some(Arrived(Message(Obj(map["method" := Str(REQUEST_PERMISSION)])))),
                               None, Written)];
            var s := Start(c, k, now, hard);
            && Clocked(now, polls) && Drops(k, s, polls)
            && Run(k, s, polls).taken == [request] && Run(k, s, polls).acks == []
  {
    var msg := Obj(map["method" := Str(REQUEST_PERMISSION)]);
    var first := Poll(now + 1, now + 1, now + 1, None, Some(request), Written);
    var second := Poll(now + 2, now + 2, now + 2, Some(Arrived(Message(msg))), None, Written);
    var polls := [first, second];
    var s := Start(c, k, now, hard);
    var t := Wake(k, s, first);
    assert t.pendingSteer.Some? && t.taken == [request] && t.acks == [] && t.outcome.None? && t.begun.None?;
    assert t.hardDeadline == hard && t.idleDeadline == now + k.idleTimeout;
    RunTwo(k, s, first, second);
    assert StringField(msg, "method") == Some(REQUEST_PERMISSION) && msg.Get("id").None?;
    hide Wake, FailsOn;
    assert polls[..1] == [first] && polls[..1][..0] == [];
    assert Clocked(now, polls[..1][..0]) && Clocked(now, polls[..1]);
    assert Run(k, s, polls[..1]) == t;
    assert DropsAt(k, s, polls, 1);
    EndsUnacknowledged(k, t, second);
  }

  lemma RunTwo(k: Call, t: Turn, p: Poll, q: Poll)
    ensures Run(k, t, [p]) == Wake(k, t, p) && Run(k, t, [p, q]) == Wake(k, Wake(k, t, p), q)
  {
    hide Wake;
    assert [p, q][..1] == [p] && [p][..0] == [];
  }

  /** A failing frame changes neither what was taken nor what was acknowledged. */
  lemma EndsUnacknowledged(k: Call, t: Turn, p: Poll)
    requires FailsOn(k, t, p)
    ensures Wake(k, t, p).taken == t.taken && Wake(k, t, p).acks == t.acks
  {
    hide Dispatch, FrameFails;
  }

  /** A frame that tells the client its steer was delivered. */
  predicate IsDelivery(pending: Pending, msg: Json) {
    && IsResponseTo(msg, pending.id)
    && msg.Get("error").None?
    && (pending.transport.Goose?
        || msg.At("result").Get("outcome") == Some(Str("injected"))
        || msg.At("result").Get("outcome") == Some(Str("startedNewTurn")))
  }

  predicate Delivers(k: Call, t: Turn, p: Poll) {
    && t.outcome.None?
    && (t.begun.Some? || p.first < Nearer(t))
    && t.pendingSteer.Some?
    && p.reader.Some? && p.reader.value.Arrived? && p.reader.value.line.Message?
    && IsDelivery(t.pendingSteer.value, p.reader.value.line.msg)
  }

  /** A wake-up reports success for the steer in flight exactly on such a frame. */
  lemma SuccessMeansDelivery(k: Call, t: Turn, p: Poll)
    ensures var u := Wake(k, t, p);
            Delivers(k, t, p) <==>
              (|u.acks| > |t.acks| && u.acks[|t.acks|].ack.Success?)
    ensures Delivers(k, t, p) ==>
              Wake(k, t, p).acks == t.acks + [Acked(t.pendingSteer.value.request, Success(k.sessionId))]
    ensures t.acks <= Wake(k, t, p).acks && |Wake(k, t, p).acks| <= |t.acks| + 1
  {
    hide OnMessage, OnSteer;
    var u := t.(begun := None);
    if CarriesJson(p) && t.outcome.None? {
      MessageDelivers(k, u, p.reader.value.line.msg, p);
    }
    if p.steer.Some? {
      SteerAcks(k, u, p.steer.value, p);
    }
  }

  lemma MessageDelivers(k: Call, t: Turn, msg: Json, p: Poll)
    ensures var delivers := t.pendingSteer.Some? && IsDelivery(t.pendingSteer.value, msg);
            var u := OnMessage(k, t, msg, p);
            && (delivers <==> |u.acks| > |t.acks| && u.acks[|t.acks|].ack.Success?)
            && (delivers ==> u.acks == t.acks + [Acked(t.pendingSteer.value.request, Success(k.sessionId))])
            && t.acks <= u.acks && |u.acks| <= |t.acks| + 1
  {
    hide Dispatch;
  }

  lemma SteerAcks(k: Call, t: Turn, request: SteerRequest, p: Poll)
    ensures var u := OnSteer(k, t, request, p);
            && t.acks <= u.acks && |u.acks| <= |t.acks| + 1
            && (|u.acks| > |t.acks| ==> !u.acks[|t.acks|].ack.Success?)
  {
    hide SteerBody;
  }

  lemma InFlightOnDelivery(k: Call, t: Turn, p: Poll)
    ensures Delivers(k, t, p) ==> t.pendingSteer.Some?
  {
  }

  /** Every success in a run was sent on the arrival of a delivery frame for that
    very request. */
  lemma {:induction false} EverySuccessWasDelivered(k: Call, s: Turn, polls: seq<Poll>, a: nat)
    requires |s.acks| <= a < |Run(k, s, polls).acks|
    requires Run(k, s, polls).acks[a].ack.Success?
    ensures exists i | 0 <= i < |polls| ::
              && Delivers(k, Run(k, s, polls[..i]), polls[i])
              && |Run(k, s, polls[..i]).acks| == a
              && Run(k, s, polls[..i]).pendingSteer.value.request == Run(k, s, polls).acks[a].request
  {
    var n := |polls| - 1;
    var u := Run(k, s, polls[..n]);
    SuccessMeansDelivery(k, u, polls[n]);
    InFlightOnDelivery(k, u, polls[n]);
    hide Wake, Delivers;
    if a == |u.acks| {
    } else {
      EverySuccessWasDelivered(k, s, polls[..n], a);
      var i :| 0 <= i < n && Delivers(k, Run(k, s, polls[..n][..i]), polls[..n][i])
               && |Run(k, s, polls[..n][..i]).acks| == a
               && Run(k, s, polls[..n][..i]).pendingSteer.value.request == u.acks[a].request;
      assert polls[..n][..i] == polls[..i];
    }
  }

  // ---------------------------------------------------------------- why a steer is acknowledged

  predicate Handling(t: Turn, p: Poll) {
    t.outcome.None? && (t.begun.Some? || p.first < Nearer(t))
  }

  /** The poll brings the answer to the steer in flight. */
  predicate AnswersSteer(t: Turn, p: Poll) {
    Handling(t, p) && t.pendingSteer.Some? && CarriesJson(p) && IsResponseTo(p.reader.value.line.msg, t.pendingSteer.value.id)
  }

  /** The poll makes the loop take a steer from the channel. */
  predicate TakesSteer(k: Call, t: Turn, p: Poll) {
    Handling(t, p) && p.reader.None? && t.pendingSteer.None? && k.receiver && p.steer.Some?
  }

  predicate NoTransport(c: Client) {
    c.activeRunId.None? && !c.steeringSupported
  }

  /** What the agent's answer to a steer is reported as. */
  predicate Reports(transport: SteerTransport, msg: Json, sessionId: string, ack: SteerAck) {
    var reported := msg.At("result").Get("outcome");
    var delivered := transport.Goose? || reported == Some(Str("injected")) || reported == Some(Str("startedNewTurn"));
    match ack
    case Success(id) => msg.Get("error").None? && delivered && id == sessionId
    case Rejected(AgentError(code, message)) =>
      msg.Get("error") == Some(message) &&
      code == (if message.At("code").AsI64().Some? then message.At("code").AsI64().value else -1)
    case Rejected(OutcomeRejected(outcome)) => msg.Get("error").None? && !delivered && outcome == reported
    case _ => false
  }

  /** Why a poll has a request acknowledged, and how: at once when no transport is open or the
    write fails, by its own answer, or neutrally when the loop returns with it in flight. */
  ghost predicate Causes(k: Call, t: Turn, p: Poll, x: Acked) {
    match x.ack
    case Rejected(ExpectedRunIdMissing) => TakesSteer(k, t, p) && x.request == p.steer.value && NoTransport(t.client)
    case Rejected(Transport(cause)) =>
      TakesSteer(k, t, p) && x.request == p.steer.value && !NoTransport(t.client) && p.write == Failed(cause)
    case PromptCompletedNeutral =>
      && t.outcome.None? && Wake(k, t, p).outcome.Some? && !FailsOn(k, t, p)
      && t.pendingSteer.Some? && x.request == t.pendingSteer.value.request
    case _ =>
      && AnswersSteer(t, p) && x.request == t.pendingSteer.value.request
      && Reports(t.pendingSteer.value.transport, p.reader.value.line.msg, k.sessionId, x.ack)
  }

  /** `acks` grew by `x`. */
  predicate Grew(before: seq<Acked>, after: seq<Acked>, x: Acked) {
    after == before + [x]
  }

  lemma SteerAckCauses(k: Call, t: Turn, request: SteerRequest, p: Poll, x: Acked)
    requires t.pendingSteer.None?
    ensures var u := OnSteer(k, t, request, p);
            && u.outcome == t.outcome
            && (Grew(t.acks, u.acks, x) <==>
                  x.request == request &&
                  (if NoTransport(t.client) then x.ack == Rejected(ExpectedRunIdMissing)
                   else p.write.Failed? && x.ack == Rejected(Transport(p.write.cause))))
  {
    GrownBy(t.acks, x);
  }

  lemma GrownBy(acks: seq<Acked>, x: Acked)
    ensures forall y :: Grew(acks, acks + [y], x) <==> x == y
    ensures !Grew(acks, acks, x)
  {
    forall y ensures Grew(acks, acks + [y], x) <==> x == y {
      assert (acks + [x])[|acks|] == x && (acks + [y])[|acks|] == y;
    }
  }

  lemma JudgeReports(transport: SteerTransport, msg: Json, sessionId: string, ack: SteerAck)
    ensures Reports(transport, msg, sessionId, ack) <==>
            match Judge(transport, msg)
            case Delivered(_) => ack == Success(sessionId)
            case Undelivered(error) => ack == Rejected(error)
  {
  }

  lemma ReportKinds(transport: SteerTransport, msg: Json, sessionId: string, ack: SteerAck)
    ensures Reports(transport, msg, sessionId, ack) ==>
              ack.Success? || (ack.Rejected? && (ack.error.AgentError? || ack.error.OutcomeRejected?))
  {
  }

  lemma AnswerAckCauses(k: Call, t: Turn, msg: Json, p: Poll, x: Acked)
    requires t.pendingSteer.Some?
    ensures var u := OnSteerResponse(k, t, msg, p);
            && u.outcome == t.outcome
            && (Grew(t.acks, u.acks, x) <==>
                  x.request == t.pendingSteer.value.request && Reports(t.pendingSteer.value.transport, msg, k.sessionId, x.ack))
  {
    GrownBy(t.acks, x);
    JudgeReports(t.pendingSteer.value.transport, msg, k.sessionId, x.ack);
    hide Judge, Reports, Grew;
  }

  lemma FinishAckCauses(t: Turn, outcome: Outcome, x: Acked)
    ensures Finish(t, outcome).outcome.Some?
    ensures Grew(t.acks, Finish(t, outcome).acks, x) <==>
            (t.pendingSteer.Some? && x == Acked(t.pendingSteer.value.request, PromptCompletedNeutral))
  {
    GrownBy(t.acks, x);
  }

  lemma MessageAckCauses(k: Call, t: Turn, msg: Json, p: Poll, x: Acked)
    requires t.outcome.None?
    ensures var u := OnMessage(k, t, msg, p);
            var answers := t.pendingSteer.Some? && IsResponseTo(msg, t.pendingSteer.value.id);
            Grew(t.acks, u.acks, x) <==>
            if answers then
              x.request == t.pendingSteer.value.request && Reports(t.pendingSteer.value.transport, msg, k.sessionId, x.ack)
            else
              t.pendingSteer.Some? && IsResponseTo(msg, k.expectedId) && x == Acked(t.pendingSteer.value.request, PromptCompletedNeutral)
    ensures var u := OnMessage(k, t, msg, p);
            var answers := t.pendingSteer.Some? && IsResponseTo(msg, t.pendingSteer.value.id);
            u.outcome.Some? <==> !answers && (IsResponseTo(msg, k.expectedId) || FrameFails(msg, p.write))
  {
    hide Dispatch, FrameFails, Reports, Grew, IsResponseTo, OnSteerResponse, Finish;
    var a := Active(k, t, p.second);
    DispatchFailsExactly(t.client, msg, p.write);
    GrownBy(t.acks, x);
    if a.pendingSteer.Some? {
      AnswerAckCauses(k, a, msg, p, x);
    }
    FinishAckCauses(a, if msg.Get("error").Some? then Err(AgentErrorOf(msg.Get("error").value)) else Ok(msg.At("result")), x);
  }

  /** A wake-up acknowledges a request in a certain way exactly if it has that cause to, and
    acknowledges one request at most. */
  lemma AckedExactlyForCause(k: Call, t: Turn, p: Poll, x: Acked)
    ensures Grew(t.acks, Wake(k, t, p).acks, x) <==> Causes(k, t, p, x)
    ensures t.acks <= Wake(k, t, p).acks && |Wake(k, t, p).acks| <= |t.acks| + 1
  {
    SuccessMeansDelivery(k, t, p);
    hide OnMessage, OnSteer, Finish, Grew, FrameFails, IsResponseTo, Reports, NoTransport;
    GrownBy(t.acks, x);
    if t.outcome.None? {
      var u := t.(begun := None);
      FinishAckCauses(t, TimeOutError(k, t, p.second), x);
      if t.begun.Some? || p.first < Nearer(t) {
        if p.reader.Some? {
          FinishAckCauses(u, Err(AgentExited), x);
          FinishAckCauses(u, Err(LineTooLong), x);
          FinishAckCauses(u, Err(ReadFailed), x);
          if CarriesJson(p) {
            if t.pendingSteer.Some? {
              ReportKinds(t.pendingSteer.value.transport, p.reader.value.line.msg, k.sessionId, x.ack);
            }
            MessageAckCauses(k, u, p.reader.value.line.msg, p, x);
          }
        } else if TakesSteer(k, t, p) {
          SteerAckCauses(k, u, p.steer.value, p, x);
        } else {
          FinishAckCauses(u, TimeOutError(k, u, p.third), x);
        }
      }
    }
  }

  function TimeOutError(k: Call, t: Turn, now: Time): (outcome: Outcome)
    ensures TimeOut(k, t, now) == Finish(t, outcome)
  {
    Err(if t.idleDeadline < t.hardDeadline then IdleTimeout(k.idleTimeout)
        else HardTimeout(if now < t.lastActivityAt then 0 else now - t.lastActivityAt))
  }

  /** Every acknowledgement in a run had its cause at the poll it was made at. */
  lemma {:induction false} EveryAckHasItsCause(k: Call, s: Turn, polls: seq<Poll>, a: nat)
    requires |s.acks| <= a < |Run(k, s, polls).acks|
    ensures exists i | 0 <= i < |polls| ::
              |Run(k, s, polls[..i]).acks| == a && Causes(k, Run(k, s, polls[..i]), polls[i], Run(k, s, polls).acks[a])
    decreases |polls|
  {
    hide Wake, Causes;
    var n := |polls| - 1;
    var u := Run(k, s, polls[..n]);
    var x := Run(k, s, polls).acks[a];
    AckedExactlyForCause(k, u, polls[n], x);
    if a == |u.acks| {
      assert Run(k, s, polls).acks == u.acks + [x];
    } else {
      EveryAckHasItsCause(k, s, polls[..n], a);
      var i :| 0 <= i < n && |Run(k, s, polls[..n][..i]).acks| == a
               && Causes(k, Run(k, s, polls[..n][..i]), polls[..n][i], u.acks[a]);
      assert polls[..n][..i] == polls[..i];
    }
  }

  // ---------------------------------------------------------------- deadlines

  /** The idle deadline always follows the last activity, and a waiting iteration
    passed its deadline check before the nearer deadline. */
  ghost predicate Timed(k: Call, t: Turn) {
    && t.idleDeadline == t.lastActivityAt + k.idleTimeout
    && (t.begun.Some? ==> t.begun.value < Nearer(t))
  }

  /** A delivery into the live turn, the only event that buys the turn more time. */
  predicate Renews(k: Call, t: Turn, p: Poll) {
    && Delivers(k, t, p)
    && (t.pendingSteer.value.transport.Goose?
        || p.reader.value.line.msg.At("result").Get("outcome") == Some(Str("injected")))
  }

  predicate CarriesJson(p: Poll) {
    p.reader.Some? && p.reader.value.Arrived? && p.reader.value.line.Message?
  }

  lemma MessageDeadlines(k: Call, t: Turn, msg: Json, p: Poll)
    requires t.begun.None? && t.outcome.None?
    ensures var u := OnMessage(k, t, msg, p);
            && u.idleDeadline == u.lastActivityAt + k.idleTimeout
            && u.begun.None?
            && u.hardDeadline == (if t.pendingSteer.Some? && IsDelivery(t.pendingSteer.value, msg)
                                     && (t.pendingSteer.value.transport.Goose?
                                         || msg.At("result").Get("outcome") == Some(Str("injected")))
                                     && p.third + k.maxDuration > t.hardDeadline
                                  then p.third + k.maxDuration else t.hardDeadline)
  {
  }

  /** The deadlines after a wake-up. */
  lemma WakeDeadlines(k: Call, t: Turn, p: Poll)
    requires Timed(k, t)
    ensures Timed(k, Wake(k, t, p))
    ensures Wake(k, t, p).hardDeadline == (if Renews(k, t, p) && p.third + k.maxDuration > t.hardDeadline
                                           then p.third + k.maxDuration else t.hardDeadline)
    ensures !CarriesJson(p) ==> Wake(k, t, p).lastActivityAt == t.lastActivityAt
  {
    hide OnMessage, OnSteer, IsDelivery, TimeOut;
    if CarriesJson(p) && t.outcome.None? && (t.begun.Some? || p.first < Nearer(t)) {
      MessageDeadlines(k, t.(begun := None), p.reader.value.line.msg, p);
    }
    if p.steer.Some? {
      SteerKeepsDeadlines(k, t.(begun := None), p.steer.value, p);
    }
    TimeOutKeepsDeadlines(k, t, p.second);
    TimeOutKeepsDeadlines(k, t.(begun := None), p.third);
  }

  lemma TimeOutKeepsDeadlines(k: Call, t: Turn, now: Time)
    ensures var u := TimeOut(k, t, now);
            && u.lastActivityAt == t.lastActivityAt && u.idleDeadline == t.idleDeadline
            && u.hardDeadline == t.hardDeadline && u.begun == t.begun
  {
  }

  lemma SteerKeepsDeadlines(k: Call, t: Turn, request: SteerRequest, p: Poll)
    ensures var u := OnSteer(k, t, request, p);
            && u.lastActivityAt == t.lastActivityAt && u.idleDeadline == t.idleDeadline
            && u.hardDeadline == t.hardDeadline && u.begun == t.begun && u.outcome == t.outcome
  {
    hide SteerBody;
  }

  predicate IdledOut(t: Turn) {
    t.outcome.Some? && t.outcome.value.Err? && t.outcome.value.error.IdleTimeout?
  }

  predicate RanOut(t: Turn) {
    t.outcome.Some? && t.outcome.value.Err? && t.outcome.value.error.HardTimeout?
  }

  /** A timeout names a deadline that really passed and was the nearer one, and an
    iteration begun at or past the nearer deadline handles no frame: it times out. */
  lemma TimeoutsAreReal(k: Call, t: Turn, p: Poll)
    requires Timed(k, t) && t.outcome.None?
    requires p.first <= p.second
    ensures IdledOut(Wake(k, t, p)) ==> t.idleDeadline < t.hardDeadline && t.idleDeadline <= p.second
    ensures RanOut(Wake(k, t, p)) ==> t.hardDeadline <= t.idleDeadline && t.hardDeadline <= p.second
    ensures (if t.begun.Some? then t.begun.value else p.first) >= Nearer(t) ==>
              Wake(k, t, p) == TimeOut(k, t, p.second)
  {
    hide OnMessage, OnSteer;
    var u := t.(begun := None);
    if CarriesJson(p) {
      MessageNeverTimesOut(k, u, p.reader.value.line.msg, p);
    }
    if p.steer.Some? {
      SteerKeepsDeadlines(k, u, p.steer.value, p);
    }
  }

  lemma MessageNeverTimesOut(k: Call, t: Turn, msg: Json, p: Poll)
    requires t.outcome.None?
    ensures !IdledOut(OnMessage(k, t, msg, p)) && !RanOut(OnMessage(k, t, msg, p))
  {
    hide Dispatch, FrameFails, Judge, IsResponseTo;
    DispatchFailsExactly(t.client, msg, p.write);
  }

  /** When a run has timed out, some poll found the deadline it names passed and nearer. */
  lemma {:induction false} EveryTimeoutIsReal(k: Call, c: Client, now: Time, hard: Time, polls: seq<Poll>)
    requires Clocked(now, polls)
    ensures IdledOut(Run(k, Start(c, k, now, hard), polls)) ==>
              exists i | 0 <= i < |polls| ::
                var t := Run(k, Start(c, k, now, hard), polls[..i]);
                t.outcome.None? && t.idleDeadline < t.hardDeadline && t.idleDeadline <= polls[i].second
    ensures RanOut(Run(k, Start(c, k, now, hard), polls)) ==>
              exists i | 0 <= i < |polls| ::
                var t := Run(k, Start(c, k, now, hard), polls[..i]);
                t.outcome.None? && t.hardDeadline <= t.idleDeadline && t.hardDeadline <= polls[i].second
  {
    hide Wake;
    var s := Start(c, k, now, hard);
    if polls == [] {
    } else {
      var n := |polls| - 1;
      var u := Run(k, s, polls[..n]);
      HardDeadlineOverRuns(k, c, now, hard, polls[..n]);
      if u.outcome.None? {
        TimeoutsAreReal(k, u, polls[n]);
      } else {
        EndedStays(k, u, polls[n]);
        EveryTimeoutIsReal(k, c, now, hard, polls[..n]);
        forall i | 0 <= i < n ensures polls[..n][..i] == polls[..i] && polls[..n][i] == polls[i] {}
      }
    }
  }

  lemma EndedStays(k: Call, t: Turn, p: Poll)
    requires t.outcome.Some?
    ensures Wake(k, t, p) == t
  {
  }

  /** Over a run the hard deadline never moves back, and it is the original one or
    exactly `maxDuration` after some delivery into the live turn. */
  lemma {:induction false} HardDeadlineOverRuns(k: Call, c: Client, now: Time, hard: Time, polls: seq<Poll>)
    ensures var t := Run(k, Start(c, k, now, hard), polls);
            && Timed(k, t)
            && t.hardDeadline >= hard
            && (t.hardDeadline == hard ||
                exists i | 0 <= i < |polls| ::
                  Renews(k, Run(k, Start(c, k, now, hard), polls[..i]), polls[i])
                  && t.hardDeadline == polls[i].third + k.maxDuration)
  {
    hide Wake, Delivers;
    var s := Start(c, k, now, hard);
    if polls == [] {
    } else {
      var n := |polls| - 1;
      HardDeadlineOverRuns(k, c, now, hard, polls[..n]);
      var u := Run(k, s, polls[..n]);
      WakeDeadlines(k, u, polls[n]);
      if Wake(k, u, polls[n]).hardDeadline == u.hardDeadline && u.hardDeadline != hard {
        var i :| 0 <= i < n && Renews(k, Run(k, s, polls[..n][..i]), polls[..n][i])
                 && u.hardDeadline == polls[..n][i].third + k.maxDuration;
        assert polls[..n][..i] == polls[..i];
      }
    }
  }

  // ---------------------------------------------------------------- termination

  function LastSeen(now: Time, polls: seq<Poll>): Time {
    if polls == [] then now else polls[|polls| - 1].third
  }

  /** Clock readings never go back and at least one tick passes between wake-ups. */
  predicate Clocked(now: Time, polls: seq<Poll>) {
    polls == [] ||
    var last := polls[|polls| - 1];
    && Clocked(now, polls[..|polls| - 1])
    && LastSeen(now, polls[..|polls| - 1]) < last.first <= last.second <= last.third
  }

  function Offers(polls: seq<Poll>): nat {
    if polls == [] then 0
    else Offers(polls[..|polls| - 1]) + if polls[|polls| - 1].steer.Some? then 1 else 0
  }

  /** Ticks left on the clock, counted twice so that entering a wait costs less than
    a tick, plus a full allowance for every steer that may still renew the turn. */
  function Measure(k: Call, t: Turn, now: Time, offers: nat): int {
    var left := offers - |t.taken| + if t.pendingSteer.Some? then 1 else 0;
    2 * (if now < t.hardDeadline then t.hardDeadline - now else 0)
    + (if t.begun.Some? then 1 else 0)
    + (2 * k.maxDuration + 1) * left
  }

  lemma MessageSpends(k: Call, t: Turn, msg: Json, p: Poll)
    ensures var u := OnMessage(k, t, msg, p);
            && u.begun == t.begun && u.taken == t.taken && (u.pendingSteer.None? || u.pendingSteer == t.pendingSteer)
            && (u.hardDeadline == t.hardDeadline
                || (t.pendingSteer.Some? && u.pendingSteer.None? && u.hardDeadline == p.third + k.maxDuration))
  {
    hide OnDispatch, OnSteerResponse, IsResponseTo, AgentErrorOf;
    var u := Active(k, t, p.second);
    DispatchSpends(k, u, msg, p);
    if u.pendingSteer.Some? {
      AnswerSpends(k, u, msg, p);
    }
  }

  lemma DispatchSpends(k: Call, t: Turn, msg: Json, p: Poll)
    ensures var u := OnDispatch(k, t, msg, p);
            u.begun == t.begun && u.taken == t.taken && u.pendingSteer == t.pendingSteer && u.hardDeadline == t.hardDeadline
  {
    hide Dispatch;
  }

  lemma AnswerSpends(k: Call, t: Turn, msg: Json, p: Poll)
    requires t.pendingSteer.Some?
    ensures var u := OnSteerResponse(k, t, msg, p);
            && u.begun == t.begun && u.taken == t.taken && u.pendingSteer.None?
            && (u.hardDeadline == t.hardDeadline || u.hardDeadline == p.third + k.maxDuration)
  {
    hide Judge;
  }

  lemma SteerSpends(k: Call, t: Turn, request: SteerRequest, p: Poll)
    ensures var u := OnSteer(k, t, request, p);
            u.begun == t.begun && |u.taken| == |t.taken| + 1 && u.hardDeadline == t.hardDeadline
  {
    hide SteerBody;
  }

  lemma WakeDecreases(k: Call, t: Turn, p: Poll, now: Time, offers: nat)
    requires now < p.first <= p.second <= p.third
    requires t.outcome.None? && Wake(k, t, p).outcome.None?
    ensures Measure(k, Wake(k, t, p), p.third, offers) < Measure(k, t, now, offers)
  {
    hide OnMessage, OnSteer;
    if CarriesJson(p) {
      MessageSpends(k, t.(begun := None), p.reader.value.line.msg, p);
    }
    if p.steer.Some? {
      SteerSpends(k, t.(begun := None), p.steer.value, p);
    }
    var u := Wake(k, t, p);
    var left := offers - |t.taken| + if t.pendingSteer.Some? then 1 else 0;
    var left' := offers - |u.taken| + if u.pendingSteer.Some? then 1 else 0;
    assert left' == left || left' == left - 1;
    assert (2 * k.maxDuration + 1) * (left - 1) == (2 * k.maxDuration + 1) * left - (2 * k.maxDuration + 1);
    assert u.hardDeadline != t.hardDeadline ==> left' == left - 1 && u.hardDeadline == p.third + k.maxDuration && u.begun.None?;
  }

  lemma TakesWhatIsOffered(k: Call, t: Turn, p: Poll)
    ensures |t.taken| <= |Wake(k, t, p).taken| <= |t.taken| + if p.steer.Some? then 1 else 0
  {
  }

  lemma {:induction false} RunDecreases(k: Call, c: Client, now: Time, hard: Time, polls: seq<Poll>, offers: nat)
    requires Clocked(now, polls) && Offers(polls) <= offers
    ensures var t := Run(k, Start(c, k, now, hard), polls);
            && |t.taken| <= Offers(polls)
            && (t.outcome.None? ==>
                  |polls| + Measure(k, t, LastSeen(now, polls), offers)
                    <= Measure(k, Start(c, k, now, hard), now, offers))
  {
    if polls == [] {
    } else {
      var n := |polls| - 1;
      var before := polls[..n];
      var u := Run(k, Start(c, k, now, hard), before);
      RunDecreases(k, c, now, hard, before, offers);
      TakesWhatIsOffered(k, u, polls[n]);
      if Wake(k, u, polls[n]).outcome.None? {
        WakeDecreases(k, u, polls[n], LastSeen(now, before), offers);
      }
    }
  }

  lemma NonNegativeProduct(a: nat, b: nat)
    ensures a * b >= 0
  {
  }

  lemma MeasureIsNatural(k: Call, t: Turn, now: Time, offers: nat)
    requires |t.taken| <= offers
    ensures Measure(k, t, now, offers) >= 0
  {
    NonNegativeProduct(2 * k.maxDuration + 1, offers - |t.taken| + if t.pendingSteer.Some? then 1 else 0);
  }

  /** A loop that is offered at most `offers` steers returns within a number of
    wake-ups fixed by its deadlines: twice the ticks left, and an allowance of
    2 * maxDuration + 1 for every steer. */
  lemma LoopReturnsInTime(k: Call, c: Client, now: Time, hard: Time, polls: seq<Poll>, offers: nat)
    requires Clocked(now, polls) && Offers(polls) <= offers
    requires |polls| > Measure(k, Start(c, k, now, hard), now, offers)
    ensures Run(k, Start(c, k, now, hard), polls).outcome.Some?
  {
    RunDecreases(k, c, now, hard, polls, offers);
    MeasureIsNatural(k, Run(k, Start(c, k, now, hard), polls), LastSeen(now, polls), offers);
  }

  function Prefix(env: nat -> Poll, n: nat): seq<Poll> {
    seq(n, i requires 0 <= i => env(i))
  }

  /** In every endless environment with an advancing clock and finitely many steers
    the loop returns. */
  lemma EveryLoopReturns(k: Call, c: Client, now: Time, hard: Time, env: nat -> Poll, offers: nat)
    requires forall n: nat :: Clocked(now, Prefix(env, n)) && Offers(Prefix(env, n)) <= offers
    ensures exists n: nat :: Run(k, Start(c, k, now, hard), Prefix(env, n)).outcome.Some?
  {
    MeasureIsNatural(k, Start(c, k, now, hard), now, offers);
    var n: nat := Measure(k, Start(c, k, now, hard), now, offers) + 1;
    LoopReturnsInTime(k, c, now, hard, Prefix(env, n), offers);
  }

  // ---------------------------------------------------------------- routing

  /** The loop returns a value, or an error the agent reported, exactly when a frame
    carrying this call's id and no method is handled. */
  lemma OnlyItsOwnAnswerReturns(k: Call, t: Turn, p: Poll)
    requires t.outcome.None?
    requires t.pendingSteer.Some? ==> t.pendingSteer.value.id != k.expectedId
    ensures var u := Wake(k, t, p);
            (u.outcome.Some? && (u.outcome.value.Ok? || u.outcome.value.error.AgentReported?)) <==>
            ((t.begun.Some? || p.first < Nearer(t)) && CarriesJson(p) && IsResponseTo(p.reader.value.line.msg, k.expectedId))
    ensures var u := Wake(k, t, p);
            u.outcome.Some? && u.outcome.value.Ok? ==>
              p.reader.value.line.msg.Get("error").None? && u.outcome.value.value == p.reader.value.line.msg.At("result")
  {
    hide OnMessage, OnSteer;
    var u := t.(begun := None);
    if CarriesJson(p) {
      MessageReturns(k, u, p.reader.value.line.msg, p);
    }
    if p.steer.Some? {
      SteerKeepsDeadlines(k, u, p.steer.value, p);
    }
  }

  lemma MessageReturns(k: Call, t: Turn, msg: Json, p: Poll)
    requires t.outcome.None?
    requires t.pendingSteer.Some? ==> t.pendingSteer.value.id != k.expectedId
    ensures var u := OnMessage(k, t, msg, p);
            (u.outcome.Some? && (u.outcome.value.Ok? || u.outcome.value.error.AgentReported?)) <==> IsResponseTo(msg, k.expectedId)
    ensures var u := OnMessage(k, t, msg, p);
            u.outcome.Some? && u.outcome.value.Ok? ==> msg.Get("error").None? && u.outcome.value.value == msg.At("result")
  {
    hide Dispatch, FrameFails, Judge;
    DispatchFailsExactly(t.client, msg, p.write);
  }

  /** A response to anything else, whatever turn it belonged to, only counts as
    activity. */
  lemma StrayResponseIgnored(k: Call, t: Turn, p: Poll, id: nat)
    requires t.outcome.None? && (t.begun.Some? || p.first < Nearer(t))
    requires CarriesJson(p) && IsResponseTo(p.reader.value.line.msg, id)
    requires id != k.expectedId && (t.pendingSteer.Some? ==> t.pendingSteer.value.id != id)
    ensures Wake(k, t, p) == t.(begun := None, lastActivityAt := p.second, idleDeadline := p.second + k.idleTimeout)
  {
  }
}
