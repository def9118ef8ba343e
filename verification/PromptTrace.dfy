/** Everything a client does, explained by what it had seen: each observation in its trace
    is justified by the ones before it, over every run. */
module PromptTrace {
  import opened Wrappers
  import opened AcpWire
  import opened PromptLoop

  /** The run id that the agent's session updates announced last, if any is current. */
  function FreshestRun(t: Trace): Option<string> {
    if t == [] then None else
    var before := t[..|t| - 1];
    match t[|t| - 1]
    case Received(msg) =>
      (match msg.verb
       case SessionUpdate(_, SetTo(run)) => Some(run)
       case SessionUpdate(_, Cleared) => None
       case _ => FreshestRun(before))
    case _ => FreshestRun(before)
  }

  predicate EndsIn(t: Trace, o: Observation) {
    t != [] && t[|t| - 1] == o
  }

  /** The request `id` carried the steer over the transport. */
  ghost predicate WasSent(t: Trace, id: nat, steer: nat, transport: SteerTransport) {
    exists j :: 0 <= j < |t| && t[j] == Issued(id, Steer(steer, transport))
  }

  /** The verdict on a steer that a response to it calls for: an error is reported with its
      code, or minus one without; a goose agent's success is a delivery; any other agent's
      must name an outcome that means one. */
  predicate Verdict(transport: SteerTransport, msg: Message, ack: SteerAck) {
    match ack
    case SteerSuccess =>
      msg.error.None? && (transport.Goose? || msg.outcome.Injected? || msg.outcome.StartedNewTurn?)
    case Err(AgentError(code)) =>
      msg.error.Some? && code == if msg.error.value.code.Some? then msg.error.value.code.value else -1
    case Err(OutcomeRejected(outcome)) =>
      msg.error.None? && transport.AcpExtension? && outcome == msg.outcome
      && !msg.outcome.Injected? && !msg.outcome.StartedNewTurn?
    case _ => false
  }

  /** The last thing seen is the response to this steer's own request that calls for the ack. */
  ghost predicate AnsweredBy(t: Trace, steer: nat, ack: SteerAck) {
    && t != [] && t[|t| - 1].Received?
    && exists id, transport ::
         WasSent(t, id, steer, transport) && IsResponseTo(t[|t| - 1].msg, id) && Verdict(transport, t[|t| - 1].msg, ack)
  }

  /** Option `i` is the first of its kind. */
  predicate IsFirst(options: seq<PermissionOption>, kind: OptionKind, i: nat) {
    i < |options| && options[i].kind == kind && forall j :: 0 <= j < i ==> options[j].kind != kind
  }

  /** The reply that the options call for: the first `allow_once` by its id, or, when none
      allows, the first `reject_once` by its id or the fallback name. */
  ghost predicate RightReply(options: seq<PermissionOption>, reply: PermissionReply) {
    if exists i :: 0 <= i < |options| && options[i].kind.AllowOnce? then
      exists i :: 0 <= i < |options| && IsFirst(options, AllowOnce, i)
        && options[i].optionId.Some? && reply == Selected(options[i].optionId.value)
    else
      exists i :: 0 <= i < |options| && IsFirst(options, RejectOnce, i)
        && reply == if options[i].optionId.Some? then Selected(options[i].optionId.value) else SelectedReject
  }

  /** The last thing seen is the permission request that calls for the reply. */
  ghost predicate RepliedRightly(t: Trace, asked: RpcId, reply: PermissionReply) {
    && |t| >= 2 && t[|t| - 1] == PermissionAsked(asked) && t[|t| - 2].Received?
    && var msg := t[|t| - 2].msg;
       && msg.id == Some(asked) && msg.verb.RequestPermission? && msg.verb.options.Some?
       && RightReply(msg.verb.options.value, reply)
  }

  /** What a client has seen and done so far justifies its next observation. */
  ghost predicate Justifies(supported: bool, past: Trace, o: Observation) {
    match o
    case Issued(_, Steer(steer, transport)) =>
      EndsIn(past, Dequeued(steer)) && if FreshestRun(past).Some? then transport.Goose? else supported && transport.AcpExtension?
    case Acked(steer, PromptCompletedNeutral) => true
    case Acked(steer, Err(ExpectedRunIdMissing)) =>
      EndsIn(past, Dequeued(steer)) && FreshestRun(past).None? && !supported
    case Acked(steer, Err(TransportError)) =>
      past != [] && past[|past| - 1].Issued? && past[|past| - 1].purpose.Steer? && past[|past| - 1].purpose.steer == steer
    case Acked(steer, ack) => AnsweredBy(past, steer, ack)
    case Renewed(_) => past != [] && past[|past| - 1].Acked? && past[|past| - 1].ack.SteerSuccess?
    case PermissionAnswered(asked, Cancelled) => true
    case PermissionAnswered(asked, reply) => RepliedRightly(past, asked, reply)
    case Refused(id) =>
      past != [] && past[|past| - 1].Received? && past[|past| - 1].msg.verb.OtherMethod? && past[|past| - 1].msg.id == Some(id)
    case _ => true
  }

  ghost predicate AllJustified(supported: bool, t: Trace) {
    t == [] || (AllJustified(supported, t[..|t| - 1]) && Justifies(supported, t[..|t| - 1], t[|t| - 1]))
  }

  lemma {:induction false} EachIsJustified(supported: bool, t: Trace, i: int)
    requires AllJustified(supported, t) && 0 <= i < |t|
    ensures Justifies(supported, t[..i], t[i])
  {
    var before := t[..|t| - 1];
    if i < |t| - 1 {
      EachIsJustified(supported, before, i);
      assert before[..i] == t[..i];
    }
  }

  /** The client's run id is the freshest one, and everything it did was justified. */
  ghost predicate Truthful(c: Client) {
    RunIdIsFresh(c) && AllJustified(c.steeringSupported, c.history.trace)
  }

  predicate RunIdIsFresh(c: Client) {
    c.activeRunId == FreshestRun(c.history.trace)
  }

  ghost predicate SteerWasSent(st: Loop) {
    st.pending.Some? ==>
      WasSent(st.client.history.trace, st.pending.value.id, st.pending.value.steer, st.pending.value.transport)
  }

  // ----- How traces grow

  lemma JustifiedGrows(supported: bool, t: Trace, o: Observation)
    requires AllJustified(supported, t) && Justifies(supported, t, o)
    ensures AllJustified(supported, t + [o])
  {
    assert (t + [o])[..|t|] == t;
  }

  lemma FreshestStep(t: Trace, o: Observation)
    ensures FreshestRun(t + [o]) ==
              if o.Received? && o.msg.verb.SessionUpdate? && o.msg.verb.run.SetTo? then Some(o.msg.verb.run.runId)
              else if o.Received? && o.msg.verb.SessionUpdate? && o.msg.verb.run.Cleared? then None
              else FreshestRun(t)
  {
    assert (t + [o])[..|t|] == t;
  }

  lemma SentGrows(t: Trace, o: Observation, id: nat, steer: nat, transport: SteerTransport)
    requires WasSent(t, id, steer, transport)
    ensures WasSent(t + [o], id, steer, transport)
  {
    var j :| 0 <= j < |t| && t[j] == Issued(id, Steer(steer, transport));
    assert (t + [o])[j] == t[j];
  }

  /** One more justified observation that is no session update. */
  lemma LogKeepsTruth(c: Client, o: Observation)
    requires Truthful(c) && Justifies(c.steeringSupported, c.history.trace, o)
    requires o.Received? ==> !o.msg.verb.SessionUpdate?
    ensures Truthful(c.Log(o))
  {
    JustifiedGrows(c.steeringSupported, c.history.trace, o);
    FreshestStep(c.history.trace, o);
  }

  // ----- Every step

  lemma VerdictIsReported(transport: SteerTransport, msg: Message)
    ensures Verdict(transport, msg, SteerAckFor(transport, msg))
  {
  }

  lemma AckKeepsTruth(c: Client, p: PendingSteer, msg: Message)
    requires Truthful(c) && WasSent(c.history.trace, p.id, p.steer, p.transport)
    requires IsResponseTo(msg, p.id) && EndsIn(c.history.trace, Received(msg))
    ensures Truthful(c.Log(Acked(p.steer, SteerAckFor(p.transport, msg))))
  {
    var ack := SteerAckFor(p.transport, msg);
    VerdictIsReported(p.transport, msg);
    assert AnsweredBy(c.history.trace, p.steer, ack);
    LogKeepsTruth(c, Acked(p.steer, ack));
  }

  lemma LogEndsIn(c: Client, o: Observation)
    ensures EndsIn(c.Log(o).history.trace, o)
  {
  }

  lemma RenewalKeepsTruth(c: Client, steer: nat, deadline: nat)
    requires Truthful(c) && EndsIn(c.history.trace, Acked(steer, SteerSuccess))
    ensures Truthful(c.(currentHardDeadline := Some(deadline)).Log(Renewed(deadline)))
  {
    LogKeepsTruth(c.(currentHardDeadline := Some(deadline)), Renewed(deadline));
  }

  lemma AnswerInTwoSteps(turn: Turn, st: Loop, msg: Message) returns (after: Client)
    requires st.pending.Some?
    ensures var p, renewed := st.pending.value, st.now + turn.maxDuration;
            var acked := st.client.Log(Acked(p.steer, SteerAckFor(p.transport, msg)));
            && after == AnswerSteer(turn, st, msg).client
            && (after == acked
                || (Renews(p.transport, msg) && after == acked.(currentHardDeadline := Some(renewed)).Log(Renewed(renewed))))
  {
    after := AnswerSteer(turn, st, msg).client;
  }

  lemma AckAndRenewalKeepTruth(c: Client, p: PendingSteer, msg: Message, deadline: nat, after: Client)
    requires Truthful(c) && WasSent(c.history.trace, p.id, p.steer, p.transport)
    requires IsResponseTo(msg, p.id) && EndsIn(c.history.trace, Received(msg))
    requires var acked := c.Log(Acked(p.steer, SteerAckFor(p.transport, msg)));
             after == acked
             || (Renews(p.transport, msg) && after == acked.(currentHardDeadline := Some(deadline)).Log(Renewed(deadline)))
    ensures Truthful(after)
  {
    AckKeepsTruth(c, p, msg);
    if Renews(p.transport, msg) {
      assert SteerAckFor(p.transport, msg) == SteerSuccess;
      LogEndsIn(c, Acked(p.steer, SteerSuccess));
      RenewalKeepsTruth(c.Log(Acked(p.steer, SteerSuccess)), p.steer, deadline);
    }
  }

  lemma AnswerKeepsTruth(turn: Turn, st: Loop, msg: Message)
    requires Truthful(st.client) && SteerWasSent(st) && st.pending.Some?
    requires IsResponseTo(msg, st.pending.value.id) && EndsIn(st.client.history.trace, Received(msg))
    ensures Truthful(AnswerSteer(turn, st, msg).client)
  {
    var after := AnswerInTwoSteps(turn, st, msg);
    AckAndRenewalKeepTruth(st.client, st.pending.value, msg, st.now + turn.maxDuration, after);
  }

  lemma DequeueKeepsTruth(st: Loop, writeOk: bool)
    requires Truthful(st.client) && st.pending.None?
    ensures Truthful(DequeueSteer(st, writeOk).client) && SteerWasSent(DequeueSteer(st, writeOk))
  {
    var c, steer := st.client, st.client.dequeued;
    LogKeepsTruth(c, Dequeued(steer));
    var taken := c.Log(Dequeued(steer));
    assert FreshestRun(taken.history.trace) == FreshestRun(c.history.trace) && EndsIn(taken.history.trace, Dequeued(steer));
    match ChooseTransport(c)
    case None =>
      LogKeepsTruth(taken, Acked(steer, Err(ExpectedRunIdMissing)));
    case Some(transport) =>
      var o := Issued(c.nextId, Steer(steer, transport));
      LogKeepsTruth(taken, o);
      var sent := taken.Log(o);
      assert EndsIn(sent.history.trace, o);
      LogKeepsTruth(sent, Acked(steer, Err(TransportError)));
      assert sent.history.trace[|taken.history.trace|] == o;
  }

  lemma ReleaseKeepsTruth(st: Loop)
    requires Truthful(st.client)
    ensures Truthful(Release(st).client)
  {
    if st.pending.Some? {
      LogKeepsTruth(st.client, Acked(st.pending.value.steer, PromptCompletedNeutral));
    }
  }

  /** The option that decides a permission request, by position. */
  lemma {:induction false} FirstOfKindIsFirst(options: seq<PermissionOption>, kind: OptionKind)
    ensures FirstOfKind(options, kind).None? <==> forall i :: 0 <= i < |options| ==> options[i].kind != kind
    ensures FirstOfKind(options, kind).Some? ==>
              exists i :: 0 <= i < |options| && IsFirst(options, kind, i) && options[i] == FirstOfKind(options, kind).value
  {
    if options != [] {
      if options[0].kind == kind {
        assert IsFirst(options, kind, 0);
      } else {
        var rest := options[1..];
        FirstOfKindIsFirst(rest, kind);
        assert forall i :: 0 < i < |options| ==> options[i] == rest[i - 1];
        if FirstOfKind(rest, kind).Some? {
          var i :| 0 <= i < |rest| && IsFirst(rest, kind, i) && rest[i] == FirstOfKind(rest, kind).value;
          assert IsFirst(options, kind, i + 1);
        }
      }
    }
  }

  /** The reply is given exactly as the options call for it. */
  lemma ReplyIsRight(options: seq<PermissionOption>, reply: PermissionReply)
    ensures ChooseReply(options) == Some(reply) <==> RightReply(options, reply)
  {
    FirstOfKindIsFirst(options, AllowOnce);
    FirstOfKindIsFirst(options, RejectOnce);
  }

  /** Serving a message that was just received. */
  lemma DispatchKeepsTruth(c: Client, msg: Message, writeOk: bool)
    requires AllJustified(c.steeringSupported, c.history.trace) && EndsIn(c.history.trace, Received(msg))
    requires !msg.verb.SessionUpdate? ==> RunIdIsFresh(c)
    requires msg.verb.SessionUpdate? && msg.verb.run.Untouched? ==> RunIdIsFresh(c)
    ensures Truthful(Dispatch(c, msg, writeOk).client)
  {
    if msg.verb.OtherMethod? && msg.id.Some? && writeOk {
      LogKeepsTruth(c, Refused(msg.id.value));
    } else if msg.verb.RequestPermission? {
      AnsweringKeepsTruth(c, msg, writeOk);
    }
  }

  lemma AnsweringKeepsTruth(c: Client, msg: Message, writeOk: bool)
    requires Truthful(c) && EndsIn(c.history.trace, Received(msg)) && msg.verb.RequestPermission?
    ensures Truthful(AnswerPermission(c, msg, writeOk).client)
  {
    if msg.id.Some? {
      var x := msg.id.value;
      LogKeepsTruth(c, PermissionAsked(x));
      var asked := c.Log(PermissionAsked(x));
      if msg.verb.options.Some? && ChooseReply(msg.verb.options.value).Some? {
        var reply := ChooseReply(msg.verb.options.value).value;
        ReplyIsRight(msg.verb.options.value, reply);
        assert RepliedRightly(asked.history.trace, x, reply);
        LogKeepsTruth(asked, PermissionAnswered(x, reply));
      }
    }
  }

  lemma ReceivingKeepsTruth(c: Client, msg: Message)
    requires Truthful(c)
    ensures var read := c.Log(Received(msg));
            && AllJustified(read.steeringSupported, read.history.trace) && EndsIn(read.history.trace, Received(msg))
            && (!msg.verb.SessionUpdate? || msg.verb.run.Untouched? ==> RunIdIsFresh(read))
  {
    JustifiedGrows(c.steeringSupported, c.history.trace, Received(msg));
    FreshestStep(c.history.trace, Received(msg));
  }

  /** Serving a message only adds to the trace. */
  lemma DispatchKeepsSent(c: Client, msg: Message, writeOk: bool, id: nat, steer: nat, transport: SteerTransport)
    requires WasSent(c.history.trace, id, steer, transport)
    ensures WasSent(Dispatch(c, msg, writeOk).client.history.trace, id, steer, transport)
  {
    var t := c.history.trace;
    if msg.id.Some? {
      SentGrows(t, Refused(msg.id.value), id, steer, transport);
      var o := PermissionAsked(msg.id.value);
      SentGrows(t, o, id, steer, transport);
      if msg.verb.RequestPermission? && msg.verb.options.Some? && ChooseReply(msg.verb.options.value).Some? {
        SentGrows(t + [o], PermissionAnswered(msg.id.value, ChooseReply(msg.verb.options.value).value), id, steer, transport);
      }
    }
  }

  lemma ReadKeepsTruth(turn: Turn, st: Loop, msg: Message, writeOk: bool)
    requires Truthful(st.client) && SteerWasSent(st)
    ensures Truthful(ReadMessage(turn, st, msg, writeOk).client) && SteerWasSent(ReadMessage(turn, st, msg, writeOk))
  {
    var active := Activate(turn, st, msg);
    ReceivingKeepsTruth(st.client, msg);
    if st.pending.Some? {
      var p := st.pending.value;
      SentGrows(st.client.history.trace, Received(msg), p.id, p.steer, p.transport);
      DispatchKeepsSent(active.client, msg, writeOk, p.id, p.steer, p.transport);
    }
    if active.pending.Some? && IsResponseTo(msg, active.pending.value.id) {
      AnswerKeepsTruth(turn, active, msg);
    } else if IsResponseTo(msg, turn.expectedId) {
      ReleaseKeepsTruth(active);
    } else {
      DispatchKeepsTruth(active.client, msg, writeOk);
    }
  }

  lemma StepKeepsTruth(turn: Turn, st: Loop, w: Wake)
    requires Truthful(st.client) && SteerWasSent(st)
    ensures Truthful(Step(turn, st, w).client) && SteerWasSent(Step(turn, st, w))
  {
    if st.exit.None? {
      if st.now >= st.NextDeadline() {
        ReleaseKeepsTruth(st);
      } else {
        var woken := st.(now := WakeTime(st, w));
        match w.event
        case Reads(Json(msg)) => ReadKeepsTruth(turn, woken, msg, w.writeOk);
        case Reads(_) =>
        case SteerArrives =>
          if turn.steerable && st.pending.None? { DequeueKeepsTruth(woken, w.writeOk); }
        case _ => ReleaseKeepsTruth(woken);
      }
    }
  }

  /** Over every run of a prompt or drain loop, everything the client does is justified. */
  lemma {:induction false} RunKeepsTruth(turn: Turn, st: Loop, ws: seq<Wake>)
    requires Truthful(st.client) && SteerWasSent(st)
    ensures Truthful(Run(turn, st, ws).client) && SteerWasSent(Run(turn, st, ws))
  {
    if ws != [] {
      RunKeepsTruth(turn, st, ws[..|ws| - 1]);
      StepKeepsTruth(turn, Run(turn, st, ws[..|ws| - 1]), ws[|ws| - 1]);
    }
  }

  // ----- Every operation

  /** The fields that the truth of a client does not depend on. */
  lemma TruthFrame(c: Client, d: Client)
    requires Truthful(c)
    requires d.steeringSupported == c.steeringSupported && d.activeRunId == c.activeRunId && d.history.trace == c.history.trace
    ensures Truthful(d)
  {
  }

  lemma LoopKeepsTruth(turn: Turn, c: Client, now: nat, hard: nat, ws: seq<Wake>)
    requires Truthful(c)
    ensures Truthful(Run(turn, Start(c, turn, now, hard), ws).client)
  {
    var st := Start(c, turn, now, hard);
    TruthFrame(c, st.client);
    RunKeepsTruth(turn, st, ws);
  }

  lemma RequestStepKeepsTruth(id: nat, c: Client, w: Wake)
    requires Truthful(c)
    ensures Truthful(RequestStep(id, c, w).0)
  {
    if w.event.Reads? && w.event.line.Json? {
      var msg := w.event.line.msg;
      ReceivingKeepsTruth(c, msg);
      if !IsResponseTo(msg, id) {
        DispatchKeepsTruth(c.Log(Received(msg)), msg, w.writeOk);
      }
    }
  }

  lemma {:induction false} RequestKeepsTruth(id: nat, c: Client, ws: seq<Wake>)
    requires Truthful(c)
    ensures Truthful(RequestRun(id, c, ws).0)
  {
    if ws != [] {
      RequestKeepsTruth(id, c, ws[..|ws| - 1]);
      RequestStepKeepsTruth(id, RequestRun(id, c, ws[..|ws| - 1]).0, ws[|ws| - 1]);
    }
  }

  lemma IssueKeepsTruth(c: Client, purpose: Purpose, after: Client)
    requires Truthful(c) && !purpose.Steer?
    requires after.steeringSupported == c.steeringSupported && after.activeRunId == c.activeRunId
    requires after.history.trace == c.history.trace + [Issued(c.nextId, purpose)]
    ensures Truthful(after)
  {
    LogKeepsTruth(c, Issued(c.nextId, purpose));
  }

  lemma PromptKeepsTruth(c: Client, op: Operation)
    requires Truthful(c) && op.SendPrompt?
    ensures Truthful(DoPrompt(c, op).0)
  {
    var st := PromptStart(c, op);
    IssueKeepsTruth(c, Prompt, st.client);
    RunKeepsTruth(PromptTurn(c, op), st, op.ws);
    var from, after := PromptOutcome(c, op);
    TruthFrame(from, after);
  }

  lemma WriteCancelKeepsTruth(c: Client, replyOk: bool, cancelOk: bool)
    requires Truthful(c)
    ensures Truthful(WriteCancel(c, replyOk, cancelOk).client)
  {
    var released := CancelPermission(c, replyOk).client;
    if c.pendingPermission.Some? {
      LogKeepsTruth(c, PermissionAnswered(c.pendingPermission.value, Cancelled));
    }
    LogKeepsTruth(released, CancelSent);
  }

  lemma CancelKeepsTruth(c: Client, op: Operation)
    requires Truthful(c) && op.CancelTurn?
    ensures Truthful(DoCancel(c, op).0)
  {
    var ready, after := CancelOutcome(c, op);
    TruthFrame(c, ready);
    if c.lastPromptId.Some? {
      var written := WriteCancel(ready, op.replyOk, op.cancelOk).client;
      var deadline, now := CleanupDeadline(c.currentHardDeadline, op.now, op.grace), op.now + op.writeTime;
      WriteCancelKeepsTruth(ready, op.replyOk, op.cancelOk);
      LoopKeepsTruth(DrainTurn(c, c.lastPromptId.value, deadline, now), written, now, deadline, op.ws);
    }
  }

  lemma OperationKeepsTruth(c: Client, op: Operation)
    requires Truthful(c)
    ensures Truthful(Apply(c, op))
  {
    match op
    case SendRequest(write, ws) =>
      var sent := c.Log(Issued(c.nextId, Request)).(nextId := c.nextId + 1);
      IssueKeepsTruth(c, Request, sent);
      RequestKeepsTruth(c.nextId, sent, ws);
    case SendPrompt(_, _, _, _, _, _) => PromptKeepsTruth(c, op);
    case CancelTurn(_, _, _, _, _, _) => CancelKeepsTruth(c, op);
    case _ => TruthFrame(c, Apply(c, op));
  }

  /** Over every life of a client its run id is the one announced last, and each thing it
      did was called for by what it had seen: every steer request went to the right place,
      every ack is the verdict that the response to that very steer calls for, every
      permission reply is the one its options call for. */
  lemma {:induction false} EveryLifeIsTruthful(steeringSupported: bool, ops: seq<Operation>)
    ensures Truthful(ApplyAll(NewClient(steeringSupported), ops))
  {
    if ops != [] {
      EveryLifeIsTruthful(steeringSupported, ops[..|ops| - 1]);
      OperationKeepsTruth(ApplyAll(NewClient(steeringSupported), ops[..|ops| - 1]), ops[|ops| - 1]);
    }
  }
}
