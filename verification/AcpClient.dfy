/** The client as the harness runs it: fields that its methods update in place, and
    read loops over mutable deadlines. Each method does exactly the step function of
    `PromptLoop` that names it. The agent's behaviour, the clock and the outcome of
    each write come in as a script of wake-ups. */
module AcpClients {
  import opened Wrappers
  import opened AcpWire
  import opened PromptLoop
  import PromptLoopProperties
  import PromptTrace

  lemma {:induction false} RunStops(turn: Turn, st: Loop, ws: seq<Wake>, i: nat)
    requires i <= |ws| && Run(turn, st, ws[..i]).exit.Some?
    ensures Run(turn, st, ws) == Run(turn, st, ws[..i])
    decreases |ws|
  {
    if i == |ws| {
      assert ws[..i] == ws;
    } else {
      assert ws[..|ws| - 1][..i] == ws[..i];
      RunStops(turn, st, ws[..|ws| - 1], i);
    }
  }

  lemma StepIsHandle(turn: Turn, st: Loop, w: Wake, done: Loop)
    requires st.exit.None? && st.now < st.NextDeadline()
    requires Handle(turn, st.(now := WakeTime(st, w)), w) == done
    ensures Step(turn, st, w) == done.(now := done.now + w.handling)
  {
  }

  lemma StepIsTimeOut(turn: Turn, st: Loop, w: Wake)
    requires st.exit.None? && st.now >= st.NextDeadline()
    ensures Step(turn, st, w) == TimeOut(st)
  {
  }

  lemma RunSnoc(turn: Turn, st: Loop, ws: seq<Wake>, i: nat)
    requires i < |ws|
    ensures Run(turn, st, ws[..i + 1]) == Step(turn, Run(turn, st, ws[..i]), ws[i])
  {
    assert ws[..i + 1][..i] == ws[..i];
  }

  lemma {:induction false} RequestRunStops(id: nat, c: Client, ws: seq<Wake>, i: nat)
    requires i <= |ws| && RequestRun(id, c, ws[..i]).1.Some?
    ensures RequestRun(id, c, ws) == RequestRun(id, c, ws[..i])
    decreases |ws|
  {
    if i == |ws| {
      assert ws[..i] == ws;
    } else {
      assert ws[..|ws| - 1][..i] == ws[..i];
      RequestRunStops(id, c, ws[..|ws| - 1], i);
    }
  }

  class AcpClient {
    var nextId: nat
    var lastPromptId: Option<nat>
    var currentHardDeadline: Option<nat>
    var activeRunId: Option<string>
    var steeringSupported: bool
    var pendingPermission: Option<RpcId>
    var permissionResponded: bool
    var steerInstalled: bool

    /** Steer requests are told apart by the order in which they were dequeued. */
    var dequeued: nat

    ghost var history: History

    ghost function Snapshot(): Client
      reads this
    {
      Client(nextId, lastPromptId, currentHardDeadline, activeRunId, steeringSupported,
             pendingPermission, permissionResponded, steerInstalled, dequeued, history)
    }

    constructor (steeringSupported: bool)
      ensures Snapshot() == NewClient(steeringSupported)
    {
      nextId, lastPromptId, currentHardDeadline, activeRunId := 0, None, None, None;
      this.steeringSupported := steeringSupported;
      pendingPermission, permissionResponded, steerInstalled := None, false, false;
      dequeued, history := 0, NO_HISTORY;
    }

    /** The first option of a kind, by scanning. */
    static method FindOption(options: seq<PermissionOption>, kind: OptionKind) returns (found: Option<PermissionOption>)
      ensures found == FirstOfKind(options, kind)
    {
      var i := 0;
      while i < |options|
        invariant 0 <= i <= |options|
        invariant FirstOfKind(options, kind) == FirstOfKind(options[i..], kind)
      {
        if options[i].kind == kind {
          return Some(options[i]);
        }
        assert options[i..][1..] == options[i + 1..];
        i := i + 1;
      }
      return None;
    }

    method HandlePermissionRequest(msg: Message, writeOk: bool) returns (error: Option<AcpError>)
      requires msg.verb.RequestPermission?
      modifies this`pendingPermission, this`permissionResponded, this`history
      ensures Handled(Snapshot(), error) == AnswerPermission(old(Snapshot()), msg, writeOk)
    {
      if msg.id.None? {
        return Some(ProtocolError);
      }
      pendingPermission := msg.id;
      permissionResponded := false;
      history := history.Add(PermissionAsked(msg.id.value));
      if msg.verb.options.None? {
        return Some(ProtocolError);
      }
      var options := msg.verb.options.value;
      var reply;
      var allow := FindOption(options, AllowOnce);
      if allow.Some? {
        if allow.value.optionId.None? {
          return Some(ProtocolError);
        }
        reply := Selected(allow.value.optionId.value);
      } else {
        var reject := FindOption(options, RejectOnce);
        if reject.None? {
          return Some(ProtocolError);
        }
        reply := if reject.value.optionId.Some? then Selected(reject.value.optionId.value) else SelectedReject;
      }
      // The flag is raised only once the reply is on the wire.
      if !writeOk {
        return Some(WriteFailed);
      }
      history := history.Add(PermissionAnswered(msg.id.value, reply));
      permissionResponded := true;
      pendingPermission := None;
      return None;
    }

    method Serve(msg: Message, writeOk: bool) returns (error: Option<AcpError>)
      modifies this`pendingPermission, this`permissionResponded, this`activeRunId, this`history
      ensures Handled(Snapshot(), error) == Dispatch(old(Snapshot()), msg, writeOk)
    {
      error := None;
      match msg.verb {
        case SessionUpdate(_, run) =>
          match run {
            case SetTo(id) => activeRunId := Some(id);
            case Cleared => activeRunId := None;
            case Untouched =>
          }
        case RequestPermission(_) =>
          error := HandlePermissionRequest(msg, writeOk);
        case OtherMethod(_) =>
          // A request with an unknown method is refused, since silence would hang the agent.
          if msg.id.Some? {
            if writeOk {
              history := history.Add(Refused(msg.id.value));
            } else {
              error := Some(WriteFailed);
            }
          }
        case _ =>
      }
    }

    /** The steer arm of the select: number the request and write it, or answer at once. */
    method SendSteer(writeOk: bool) returns (pending: Option<PendingSteer>)
      modifies this`nextId, this`dequeued, this`history
      ensures forall st: Loop :: st.client == old(Snapshot()) && st.pending.None? ==>
                DequeueSteer(st, writeOk) == st.(client := Snapshot(), pending := pending)
    {
      var steer := dequeued;
      history := history.Add(Dequeued(steer));
      dequeued := dequeued + 1;
      pending := None;
      if activeRunId.None? && !steeringSupported {
        history := history.Add(Acked(steer, Err(ExpectedRunIdMissing)));
        return;
      }
      var transport := if activeRunId.Some? then Goose else AcpExtension;
      var id := nextId;
      nextId := nextId + 1;
      history := history.Add(Issued(id, Steer(steer, transport)));
      if writeOk {
        pending := Some(PendingSteer(id, transport, steer));
      } else {
        history := history.Add(Acked(steer, Err(TransportError)));
      }
    }

    /** A response to the steer in flight: acknowledge it, renewing the deadline when the
        agent took it into the awaited turn. */
    method AcknowledgeSteer(p: PendingSteer, msg: Message, now: nat, maxDuration: nat, hardDeadline: nat) returns (hard: nat)
      modifies this`currentHardDeadline, this`history
      ensures forall turn: Turn, st: Loop ::
                turn.maxDuration == maxDuration && st.client == old(Snapshot()) && st.pending == Some(p)
                && st.now == now && st.hardDeadline == hardDeadline ==>
                  AnswerSteer(turn, st, msg) == st.(client := Snapshot(), pending := None, hardDeadline := hard)
    {
      hard := hardDeadline;
      if msg.error.Some? {
        var code := if msg.error.value.code.Some? then msg.error.value.code.value else -1;
        history := history.Add(Acked(p.steer, Err(AgentError(code))));
        return;
      }
      if p.transport.AcpExtension? && !msg.outcome.Injected? && !msg.outcome.StartedNewTurn? {
        history := history.Add(Acked(p.steer, Err(OutcomeRejected(msg.outcome))));
        return;
      }
      history := history.Add(Acked(p.steer, SteerSuccess));
      if p.transport.AcpExtension? && msg.outcome.StartedNewTurn? {
        return;
      }
      var renewed := now + maxDuration;
      if renewed > hardDeadline {
        hard := renewed;
        currentHardDeadline := Some(renewed);
        history := history.Add(Renewed(renewed));
      }
    }

    /** Answer a withheld steer with the neutral ack before the loop returns. */
    ghost method ReleaseSteer(pending: Option<PendingSteer>)
      modifies this`history
      ensures forall st: Loop :: st.client == old(Snapshot()) && st.pending == pending ==>
                Release(st) == st.(client := Snapshot(), pending := None)
    {
      if pending.Some? {
        history := history.Add(Acked(pending.value.steer, PromptCompletedNeutral));
      }
    }

    /** A deadline has passed: release a steer in flight and classify the timeout. */
    method Expire(now: nat, idleDeadline: nat, hardDeadline: nat, lastActivity: nat, pending: Option<PendingSteer>)
      returns (exit: Exit)
      modifies this`history
      ensures TimeOut(Loop(old(Snapshot()), now, idleDeadline, hardDeadline, lastActivity, pending, None)) ==
                Loop(Snapshot(), now, idleDeadline, hardDeadline, lastActivity, None, Some(exit))
    {
      ReleaseSteer(pending);
      if idleDeadline < hardDeadline {
        exit := Failed(IdleTimeout);
      } else {
        exit := Failed(HardTimeout(if now >= lastActivity then now - lastActivity else 0));
      }
    }

    /** One parsed line: route a response by its id, or serve the agent's own message. */
    method ReadOne(turn: Turn, msg: Message, writeOk: bool, now: nat, pending: Option<PendingSteer>, hardDeadline: nat)
      returns (pending': Option<PendingSteer>, hard: nat, exit: Option<Exit>)
      modifies this`pendingPermission, this`permissionResponded, this`activeRunId, this`currentHardDeadline, this`history
      ensures forall st: Loop ::
                st.client == old(Snapshot()) && st.now == now && st.pending == pending
                && st.hardDeadline == hardDeadline && st.exit.None? ==>
                  ReadMessage(turn, st, msg, writeOk) ==
                    st.(client := Snapshot(), pending := pending', hardDeadline := hard, exit := exit,
                        idleDeadline := now + turn.idleTimeout, lastActivity := now)
    {
      pending', hard, exit := pending, hardDeadline, None;
      history := history.Add(Received(msg));
      if pending.Some? && msg.verb.NoMethod? && msg.id == Some(Num(pending.value.id)) {
        hard := AcknowledgeSteer(pending.value, msg, now, turn.maxDuration, hardDeadline);
        pending' := None;
      } else if msg.verb.NoMethod? && msg.id == Some(Num(turn.expectedId)) {
        ReleaseSteer(pending);
        pending' := None;
        exit := Some(if msg.error.Some? then Failed(AgentReported(ErrorCode(msg.error.value))) else Completed(msg.value));
      } else {
        var error := Serve(msg, writeOk);
        if error.Some? {
          // Propagated without answering a steer that may be in flight.
          exit := Some(HandlerFailed(error.value));
        }
      }
    }

    /** The arm of the select that woke up. */
    method Select(turn: Turn, steerable: bool, w: Wake, now: nat, idleDeadline: nat, hardDeadline: nat,
                  lastActivity: nat, pending: Option<PendingSteer>)
      returns (idle: nat, hard: nat, last: nat, pending': Option<PendingSteer>, exit: Option<Exit>)
      requires turn.steerable == steerable
      modifies this`nextId, this`dequeued, this`pendingPermission, this`permissionResponded, this`activeRunId,
               this`currentHardDeadline, this`history
      ensures Handle(turn, Loop(old(Snapshot()), now, idleDeadline, hardDeadline, lastActivity, pending, None), w) ==
                Loop(Snapshot(), now, idle, hard, last, pending', exit)
    {
      idle, hard, last, pending', exit := idleDeadline, hardDeadline, lastActivity, pending, None;
      match w.event {
        case Reads(line) =>
          if line.Json? {
            idle, last := now + turn.idleTimeout, now;
            pending', hard, exit := ReadOne(turn, line.msg, w.writeOk, now, pending, hardDeadline);
          }
        case SteerArrives =>
          if steerable && pending.None? {
            pending' := SendSteer(w.writeOk);
          }
        case DeadlineFires =>
          var timeout := Expire(now, idleDeadline, hardDeadline, lastActivity, pending);
          pending', exit := None, Some(timeout);
        case Eof =>
          ReleaseSteer(pending);
          pending', exit := None, Some(Failed(AgentExited));
        case LineTooLong =>
          ReleaseSteer(pending);
          pending', exit := None, Some(Failed(ProtocolError));
        case ReadFails =>
          ReleaseSteer(pending);
          pending', exit := None, Some(Failed(IoError));
      }
    }

    /** One iteration: the deadline check that a streaming agent cannot starve, then the select. */
    method Iterate(turn: Turn, steerable: bool, w: Wake, start: nat, idleDeadline: nat, hardDeadline: nat,
                   lastActivity: nat, pending: Option<PendingSteer>)
      returns (now: nat, idle: nat, hard: nat, last: nat, pending': Option<PendingSteer>, exit: Option<Exit>)
      requires turn.steerable == steerable
      modifies this`nextId, this`dequeued, this`pendingPermission, this`permissionResponded, this`activeRunId,
               this`currentHardDeadline, this`history
      ensures Step(turn, Loop(old(Snapshot()), start, idleDeadline, hardDeadline, lastActivity, pending, None), w) ==
                Loop(Snapshot(), now, idle, hard, last, pending', exit)
    {
      now, idle, hard, last := start, idleDeadline, hardDeadline, lastActivity;
      var nextDeadline := if idleDeadline < hardDeadline then idleDeadline else hardDeadline;
      ghost var st := Loop(Snapshot(), start, idleDeadline, hardDeadline, lastActivity, pending, None);
      if now >= nextDeadline {
        StepIsTimeOut(turn, st, w);
        var timeout := Expire(now, idleDeadline, hardDeadline, lastActivity, pending);
        return now, idle, hard, last, None, Some(timeout);
      }
      now := if w.event.DeadlineFires? || now + w.delay > nextDeadline then nextDeadline else now + w.delay;
      idle, hard, last, pending', exit := Select(turn, steerable, w, now, idleDeadline, hardDeadline, lastActivity, pending);
      StepIsHandle(turn, st, w, Loop(Snapshot(), now, idle, hard, last, pending', exit));
      now := now + w.handling;
    }

    /** Read until the response to the turn's request arrives or a deadline passes. The
        script holds one wake-up per iteration; when it runs out the loop is still
        waiting, or its caller has dropped it. */
    method ReadUntilResponse(turn: Turn, start: nat, hard: nat, script: seq<Wake>)
      returns (exit: Option<Exit>, ghost end: Loop)
      requires turn.steerable == steerInstalled
      modifies this
      ensures end == Run(turn, Start(old(Snapshot()), turn, start, hard), script)
      ensures Snapshot() == end.client && exit == end.exit
    {
      var steerable := steerInstalled;
      steerInstalled := false;
      var pending: Option<PendingSteer> := None;
      var now: nat := start;
      var idleDeadline: nat, hardDeadline: nat, lastActivity: nat := now + turn.idleTimeout, hard, now;
      exit := None;
      ghost var begin := Start(old(Snapshot()), turn, start, hard);
      end := begin;
      var i := 0;
      assert script[..0] == [];
      while i < |script| && exit.None?
        invariant 0 <= i <= |script|
        invariant end == Run(turn, begin, script[..i])
        invariant end == Loop(Snapshot(), now, idleDeadline, hardDeadline, lastActivity, pending, exit)
      {
        RunSnoc(turn, begin, script, i);
        now, idleDeadline, hardDeadline, lastActivity, pending, exit :=
          Iterate(turn, steerable, script[i], now, idleDeadline, hardDeadline, lastActivity, pending);
        end := Loop(Snapshot(), now, idleDeadline, hardDeadline, lastActivity, pending, exit);
        i := i + 1;
      }
      if exit.Some? {
        RunStops(turn, begin, script, i);
      } else {
        assert script[..i] == script;
      }
    }

    method SendRequest(write: WriteOutcome, script: seq<Wake>) returns (exit: Option<Exit>)
      modifies this
      ensures (Snapshot(), exit) == DoRequest(old(Snapshot()), write, script)
    {
      var id := nextId;
      nextId := nextId + 1;
      history := history.Add(Issued(id, Request));
      if write.WriteError? {
        return Some(Failed(WriteFailed));
      } else if write.Dropped? {
        return Some(Failed(RequestTimeout));
      }
      exit := None;
      ghost var begin := Snapshot();
      var i := 0;
      assert script[..0] == [];
      while i < |script| && exit.None?
        invariant 0 <= i <= |script|
        invariant (Snapshot(), exit) == RequestRun(id, begin, script[..i])
      {
        assert script[..i + 1][..i] == script[..i];
        exit := ReadReply(id, script[i]);
        i := i + 1;
      }
      if exit.Some? {
        RequestRunStops(id, begin, script, i);
      } else {
        assert script[..i] == script;
      }
    }

    /** One iteration of the plain read loop. */
    method ReadReply(expectedId: nat, w: Wake) returns (exit: Option<Exit>)
      modifies this`pendingPermission, this`permissionResponded, this`activeRunId, this`history
      ensures (Snapshot(), exit) == RequestStep(expectedId, old(Snapshot()), w)
    {
      exit := None;
      match w.event {
        case DeadlineFires => exit := Some(Failed(RequestTimeout));
        case Eof => exit := Some(Failed(AgentExited));
        case LineTooLong => exit := Some(Failed(ProtocolError));
        case ReadFails => exit := Some(Failed(IoError));
        case SteerArrives =>
        case Reads(line) =>
          if line.Json? {
            var msg := line.msg;
            history := history.Add(Received(msg));
            if msg.verb.NoMethod? && msg.id == Some(Num(expectedId)) {
              exit := Some(if msg.error.Some? then Failed(AgentReported(ErrorCode(msg.error.value))) else Completed(msg.value));
            } else {
              var error := Serve(msg, w.writeOk);
              if error.Some? {
                exit := Some(HandlerFailed(error.value));
              }
            }
          }
      }
    }

    /** Take the next id for a prompt and start its clock. */
    method ArmPrompt(op: Operation) returns (id: nat, hardDeadline: nat)
      requires op.SendPrompt?
      modifies this`currentHardDeadline, this`lastPromptId, this`nextId, this`history
      ensures id == old(nextId) && hardDeadline == op.now + op.maxDuration
      ensures Snapshot().(steerInstalled := false) == PromptStart(old(Snapshot()), op).client
      ensures Snapshot().steerInstalled == old(steerInstalled)
    {
      hardDeadline := op.now + op.maxDuration;
      currentHardDeadline := Some(hardDeadline);
      lastPromptId := Some(nextId);
      id := nextId;
      nextId := nextId + 1;
      history := history.Add(Issued(id, Prompt));
    }

    /** On a timeout, leave the prompt marked for the cancel that follows. */
    method ClearPrompt(exit: Option<Exit>)
      modifies this`currentHardDeadline, this`lastPromptId
      ensures Snapshot() == SettlePrompt(old(Snapshot()), exit)
    {
      if exit.Some? {
        match exit.value {
          case Failed(IdleTimeout) =>
          case Failed(HardTimeout(_)) =>
          case _ => lastPromptId, currentHardDeadline := None, None;
        }
      }
    }

    method SessionPrompt(op: Operation) returns (exit: Option<Exit>)
      requires op.SendPrompt?
      modifies this
      ensures (Snapshot(), exit) == DoPrompt(old(Snapshot()), op)
    {
      var id, hardDeadline := ArmPrompt(op);
      if op.write.Dropped? {
        return None;
      }
      if op.write.WriteError? {
        exit := Some(Failed(WriteFailed));
      } else {
        ghost var end;
        exit, end := ReadUntilResponse(Turn(id, op.idleTimeout, op.maxDuration, steerInstalled),
                                       op.now + op.writeTime, hardDeadline, op.ws);
      }
      ClearPrompt(exit);
    }

    /** Answer a permission request that is still open. */
    method ReleasePermission(replyOk: bool) returns (error: Option<AcpError>)
      modifies this`pendingPermission, this`permissionResponded, this`history
      ensures Handled(Snapshot(), error) == CancelPermission(old(Snapshot()), replyOk)
    {
      if pendingPermission.Some? {
        if !permissionResponded {
          if !replyOk {
            return Some(WriteFailed);
          }
          history := history.Add(PermissionAnswered(pendingPermission.value, Cancelled));
        }
        pendingPermission, permissionResponded := None, false;
      }
      return None;
    }

    method SendCancel(replyOk: bool, cancelOk: bool) returns (error: Option<AcpError>)
      modifies this`pendingPermission, this`permissionResponded, this`history
      ensures Handled(Snapshot(), error) == WriteCancel(old(Snapshot()), replyOk, cancelOk)
    {
      error := ReleasePermission(replyOk);
      if error.None? {
        if cancelOk {
          history := history.Add(CancelSent);
        } else {
          error := Some(WriteFailed);
        }
      }
    }

    /** The drain shares the turn's deadline, with a floor, or the caller's grace window. */
    method TakeCleanupDeadline(now: nat, grace: Option<nat>) returns (deadline: nat)
      modifies this`currentHardDeadline
      ensures deadline == CleanupDeadline(old(currentHardDeadline), now, grace)
      ensures Snapshot() == old(Snapshot()).(currentHardDeadline := None)
    {
      var stored := currentHardDeadline;
      currentHardDeadline := None;
      deadline := now + CLEANUP_GRACE;
      if grace.Some? {
        deadline := now + grace.value;
      } else if stored.Some? && stored.value > deadline {
        deadline := stored.value;
      }
    }

    /** Cancel the turn in flight and drain its response. */
    method CancelWithCleanup(op: Operation) returns (exit: Option<Exit>)
      requires op.CancelTurn?
      modifies this
      ensures (Snapshot(), exit) == DoCancel(old(Snapshot()), op)
    {
      var deadline := TakeCleanupDeadline(op.now, op.grace);
      if lastPromptId.None? {
        return Some(Failed(ProtocolError));
      }
      var promptId := lastPromptId.value;
      lastPromptId := None;
      var error := SendCancel(op.replyOk, op.cancelOk);
      if error.Some? {
        return Some(Failed(error.value));
      }
      var now := op.now + op.writeTime;
      var remaining := if deadline > now then deadline - now else 0;
      ghost var end;
      exit, end := ReadUntilResponse(Turn(promptId, CLEANUP_GRACE, remaining, steerInstalled), now, deadline, op.ws);
      if op.grace.Some? && exit.Some? && exit.value.Failed? && exit.value.error.HardTimeout? {
        exit := Some(Failed(CancelDrainTimeout));
      }
    }

    /** Hand the client the steer channel of the next turn. */
    method InstallSteer()
      modifies this`steerInstalled
      ensures Snapshot() == old(Snapshot()).(steerInstalled := true)
    {
      steerInstalled := true;
    }

    method ClearSteer()
      modifies this`steerInstalled
      ensures Snapshot() == old(Snapshot()).(steerInstalled := false)
    {
      steerInstalled := false;
    }

    /** Any one operation keeps the client sound and truthful. */
    method Operate(op: Operation)
      requires PromptLoopProperties.Sound(Snapshot()) && PromptTrace.Truthful(Snapshot())
      modifies this
      ensures Snapshot() == Apply(old(Snapshot()), op)
      ensures PromptLoopProperties.Sound(Snapshot()) && PromptTrace.Truthful(Snapshot())
    {
      ghost var c := Snapshot();
      Perform(op);
      PromptLoopProperties.OperationIsSound(c, op);
      PromptTrace.OperationKeepsTruth(c, op);
    }

    method Perform(op: Operation)
      modifies this
      ensures Snapshot() == Apply(old(Snapshot()), op)
    {
      match op {
        case InstallSteer => InstallSteer();
        case ClearSteer => ClearSteer();
        case SendRequest(write, ws) => var _ := SendRequest(write, ws);
        case SendPrompt(_, _, _, _, _, _) => var _ := SessionPrompt(op);
        case CancelTurn(_, _, _, _, _, _) => var _ := CancelWithCleanup(op);
      }
    }

    /** A whole life of a client. */
    static method Live(steeringSupported: bool, ops: seq<Operation>) returns (client: AcpClient)
      ensures fresh(client) && client.Snapshot() == ApplyAll(NewClient(steeringSupported), ops)
      ensures PromptLoopProperties.Sound(client.Snapshot()) && PromptTrace.Truthful(client.Snapshot())
    {
      client := new AcpClient(steeringSupported);
      PromptLoopProperties.EveryLifeIsSound(steeringSupported, []);
      PromptTrace.EveryLifeIsTruthful(steeringSupported, []);
      for i := 0 to |ops|
        invariant fresh(client) && client.Snapshot() == ApplyAll(NewClient(steeringSupported), ops[..i])
        invariant PromptLoopProperties.Sound(client.Snapshot()) && PromptTrace.Truthful(client.Snapshot())
      {
        assert ops[..i + 1][..i] == ops[..i];
        client.Operate(ops[i]);
      }
      assert ops[..|ops|] == ops;
    }
  }
}
