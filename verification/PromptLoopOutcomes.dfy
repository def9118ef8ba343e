/** What each wake-up and each operation must bring about, in the fields of the message,
    the client and the loop. */
module PromptLoopOutcomes {
  import opened Wrappers
  import opened AcpWire
  import opened PromptLoop
  import opened PromptTrace
  import opened PromptLoopProperties

  function Min(a: nat, b: nat): nat { if a < b then a else b }

  /** The loop is running and neither deadline has passed. */
  predicate Live(st: Loop) {
    st.exit.None? && st.now < st.idleDeadline && st.now < st.hardDeadline
  }

  /** When a wake-up other than the deadline's own happens: after its delay, and never
      after the earlier deadline. */
  function At(st: Loop, w: Wake): nat {
    Min(st.now + w.delay, Min(st.idleDeadline, st.hardDeadline))
  }

  /** What answering a withheld steer without a verdict adds to the trace. */
  function Neutral(st: Loop): Trace {
    if st.pending.Some? then [Acked(st.pending.value.steer, PromptCompletedNeutral)] else []
  }

  // ----- Steers

  /** The response to the steer in flight, completely. Its ack is a success exactly when
      there is no error and the agent is goose, or names an outcome that means delivery; an
      error is passed on with its code; anything else is a rejection. The hard deadline is
      set anew exactly for a steer taken into the awaited turn, and never earlier. */
  lemma SteerResponseIsExact(turn: Turn, st: Loop, w: Wake, msg: Message, p: PendingSteer) returns (ack: SteerAck)
    requires Live(st) && st.pending == Some(p)
    requires w.event == Reads(Json(msg)) && msg.verb.NoMethod? && msg.id == Some(Num(p.id))
    ensures ack == SteerSuccess <==>
              msg.error.None? && (p.transport.Goose? || msg.outcome.Injected? || msg.outcome.StartedNewTurn?)
    ensures msg.error.Some? ==>
              ack == Err(AgentError(if msg.error.value.code.Some? then msg.error.value.code.value else -1))
    ensures msg.error.None? && ack != SteerSuccess ==> ack == Err(OutcomeRejected(msg.outcome))
    ensures var after, deadline := Step(turn, st, w), At(st, w) + turn.maxDuration;
            var renews := msg.error.None? && (p.transport.Goose? || msg.outcome.Injected?) && deadline > st.hardDeadline;
            && after.exit.None? && after.pending.None?
            && after.hardDeadline == (if renews then deadline else st.hardDeadline)
            && after.client.currentHardDeadline == (if renews then Some(deadline) else st.client.currentHardDeadline)
            && after.client.history.trace ==
                 st.client.history.trace + [Received(msg), Acked(p.steer, ack)] + if renews then [Renewed(deadline)] else []
  {
    ack := SteerAckFor(p.transport, msg);
  }

  /** A steer request is taken when the loop is steerable and none is in flight. It goes to
      the run the agent announced, or else to the agent's steering extension, under the next
      id, and it is in flight once written; without either it is answered at once. */
  lemma SteerRequestIsExact(turn: Turn, st: Loop, w: Wake)
    requires Live(st) && w.event.SteerArrives?
    ensures var c, k, id, after := st.client, st.client.dequeued, st.client.nextId, Step(turn, st, w);
            var transport := if c.activeRunId.Some? then Goose else AcpExtension;
            && after.exit.None? && after.now == At(st, w) + w.handling
            && after.idleDeadline == st.idleDeadline && after.hardDeadline == st.hardDeadline
            && (if !turn.steerable || st.pending.Some? then after.client == c && after.pending == st.pending
                else if c.activeRunId.None? && !c.steeringSupported then
                  && after.pending.None? && after.client.nextId == id
                  && after.client.history.trace == c.history.trace + [Dequeued(k), Acked(k, Err(ExpectedRunIdMissing))]
                else if w.writeOk then
                  && after.pending == Some(PendingSteer(id, transport, k)) && after.client.nextId == id + 1
                  && after.client.history.trace == c.history.trace + [Dequeued(k), Issued(id, Steer(k, transport))]
                else
                  && after.pending.None? && after.client.nextId == id + 1
                  && after.client.history.trace ==
                       c.history.trace + [Dequeued(k), Issued(id, Steer(k, transport)), Acked(k, Err(TransportError))])
            && (turn.steerable && st.pending.None? ==> after.client.dequeued == k + 1)
  {
  }

  // ----- Clocks

  /** Every parsed line is activity, whatever it says, and nothing else is. */
  lemma ActivityIsExactlyAParsedLine(turn: Turn, st: Loop, w: Wake)
    requires Live(st)
    ensures var after := Step(turn, st, w);
            if w.event.Reads? && w.event.line.Json? then
              after.lastActivity == At(st, w) && after.idleDeadline == At(st, w) + turn.idleTimeout
            else
              after.lastActivity == st.lastActivity && after.idleDeadline == st.idleDeadline
    ensures w.event.Reads? && !w.event.line.Json? ==> Step(turn, st, w) == st.(now := At(st, w) + w.handling)
  {
  }

  /** A running loop times out exactly when a deadline has passed or fires. The timeout is
      an idle one exactly when the idle deadline is the earlier; a hard one says how long
      the agent had been silent. A steer in flight is answered. */
  lemma TimeoutIsExact(turn: Turn, st: Loop, w: Wake)
    requires st.exit.None?
    ensures var after := Step(turn, st, w);
            var due := st.now >= st.idleDeadline || st.now >= st.hardDeadline;
            var at := if due then st.now else Min(st.idleDeadline, st.hardDeadline);
            && (after.exit.Some? && IsTimeout(after.exit.value) <==> due || w.event.DeadlineFires?)
            && (due || w.event.DeadlineFires? ==>
                  && after.exit == Some(Failed(
                       if st.idleDeadline < st.hardDeadline then IdleTimeout
                       else HardTimeout(if at < st.lastActivity then 0 else at - st.lastActivity)))
                  && after.pending.None? && after.client.history.trace == st.client.history.trace + Neutral(st))
  {
    var msg := if w.event.Reads? && w.event.line.Json? then w.event.line.msg else Message(None, NoMethod, None, Absent, 0);
    DispatchFrame(st.client, msg, w.writeOk);
  }

  /** A loop that timed out was due: silent for the idle timeout, or past its hard deadline. */
  predicate TimedOutDuly(turn: Turn, st: Loop) {
    && (st.exit == Some(Failed(IdleTimeout)) ==>
          st.lastActivity + turn.idleTimeout <= st.now && st.idleDeadline < st.hardDeadline)
    && (st.exit.Some? && st.exit.value.Failed? && st.exit.value.error.HardTimeout? ==>
          && st.hardDeadline <= st.now && st.hardDeadline <= st.idleDeadline
          && st.exit.value.error.silence <= turn.idleTimeout + (st.now - st.hardDeadline))
  }

  lemma StepTimesOutDuly(turn: Turn, st: Loop, w: Wake)
    requires TimedOutDuly(turn, st) && st.idleDeadline == st.lastActivity + turn.idleTimeout
    ensures TimedOutDuly(turn, Step(turn, st, w))
  {
    if st.exit.None? {
      TimeoutIsExact(turn, st, w);
      IdleClockFollowsActivity(turn, st, w);
      OnlyInjectionRenews(turn, st, w);
    }
  }

  /** Over every run, an idle timeout means that no line was parsed for the idle timeout,
      and a hard one that the hard deadline, renewals included, had passed. */
  lemma {:induction false} RunTimesOutDuly(turn: Turn, c: Client, now: nat, hard: nat, ws: seq<Wake>)
    ensures TimedOutDuly(turn, Run(turn, Start(c, turn, now, hard), ws))
  {
    if ws != [] {
      var front := ws[..|ws| - 1];
      RunTimesOutDuly(turn, c, now, hard, front);
      RunIsOnBudget(turn, Start(c, turn, now, hard), front, hard, c.history.renewals);
      StepTimesOutDuly(turn, Run(turn, Start(c, turn, now, hard), front), ws[|ws| - 1]);
    }
  }

  // ----- Ends of a loop

  /** The awaited response ends the loop, with its value or with the agent's error, whose
      code is -32000 when it names none. A steer in flight is answered first. */
  lemma AwaitedResponseIsExact(turn: Turn, st: Loop, w: Wake, msg: Message)
    requires Live(st) && w.event == Reads(Json(msg)) && msg.verb.NoMethod? && msg.id == Some(Num(turn.expectedId))
    requires st.pending.Some? ==> st.pending.value.id != turn.expectedId
    ensures var after := Step(turn, st, w);
            && after.exit == Some(
                 if msg.error.None? then Completed(msg.value)
                 else Failed(AgentReported(if msg.error.value.code.Some? then msg.error.value.code.value else -32000)))
            && after.pending.None?
            && after.client.history.trace == st.client.history.trace + [Received(msg)] + Neutral(st)
  {
  }

  /** The end of the stream, an oversized line and a failed read end the loop, each with its
      own error; a steer in flight is answered first. */
  lemma BrokenStreamIsExact(turn: Turn, st: Loop, w: Wake)
    requires Live(st) && (w.event.Eof? || w.event.LineTooLong? || w.event.ReadFails?)
    ensures var after := Step(turn, st, w);
            && after.exit == Some(Failed(if w.event.Eof? then AgentExited else if w.event.LineTooLong? then ProtocolError else IoError))
            && after.pending.None? && after.client.history.trace == st.client.history.trace + Neutral(st)
  {
  }

  // ----- Messages of the agent itself

  /** Serving a message of the agent, completely: the run id follows session updates, an
      unknown request is refused, and everything else but a permission request is ignored. */
  lemma ServiceIsExact(c: Client, msg: Message, writeOk: bool)
    requires !msg.verb.RequestPermission?
    ensures var after := Dispatch(c, msg, writeOk);
            match msg.verb
            case SessionUpdate(_, run) =>
              after == Handled(c.(activeRunId := if run.SetTo? then Some(run.runId) else if run.Cleared? then None else c.activeRunId), None)
            case OtherMethod(_) =>
              if msg.id.None? then after == Handled(c, None)
              else if !writeOk then after == Handled(c, Some(WriteFailed))
              else after == Handled(c.Log(Refused(msg.id.value)), None)
            case _ => after == Handled(c, None)
  {
  }

  /** A message that answers neither the awaited request nor the steer in flight is served,
      and touches nothing else of the loop; it ends the loop exactly when that fails. */
  lemma OtherMessagesAreServed(turn: Turn, st: Loop, w: Wake, msg: Message)
    requires Live(st) && w.event == Reads(Json(msg))
    requires !IsResponseTo(msg, turn.expectedId) && (st.pending.Some? ==> !IsResponseTo(msg, st.pending.value.id))
    ensures var after, served := Step(turn, st, w), Dispatch(st.client.Log(Received(msg)), msg, w.writeOk);
            && after.client == served.client && after.pending == st.pending && after.hardDeadline == st.hardDeadline
            && after.exit == (if served.error.Some? then Some(HandlerFailed(served.error.value)) else None)
            && (after.exit.Some? <==> Breaks(msg, w.writeOk))
  {
    DispatchFailsExactlyWhen(st.client.Log(Received(msg)), msg, w.writeOk);
  }

  /** A permission request with an id whose options call for a reply gets it once it can be
      written. */
  lemma PermissionIsAnswered(c: Client, msg: Message, x: RpcId, options: seq<PermissionOption>, reply: PermissionReply)
    requires msg.id == Some(x) && msg.verb == RequestPermission(Some(options)) && RightReply(options, reply)
    ensures var after := Dispatch(c, msg, true);
            && after.error.None? && after.client.pendingPermission.None? && after.client.permissionResponded
            && after.client.history.trace == c.history.trace + [PermissionAsked(x), PermissionAnswered(x, reply)]
  {
    ReplyIsRight(options, reply);
  }

  /** Any other is an error: of the protocol when it bears no id, has no options or none that
      calls for a reply, and of the write otherwise. Its id, if it bears one, stays pending. */
  lemma PermissionIsLeftOpen(c: Client, msg: Message, writeOk: bool)
    requires msg.verb.RequestPermission?
    requires var hopeless := msg.verb.options.None? || forall reply :: !RightReply(msg.verb.options.value, reply);
             msg.id.None? || hopeless || !writeOk
    ensures var after := Dispatch(c, msg, writeOk);
            var hopeless := msg.verb.options.None? || forall reply :: !RightReply(msg.verb.options.value, reply);
            && after.error == Some(if msg.id.None? || hopeless then ProtocolError else WriteFailed)
            && (msg.id.None? ==> after.client == c)
            && (msg.id.Some? ==>
                  && after.client.pendingPermission == msg.id && !after.client.permissionResponded
                  && after.client.history.trace == c.history.trace + [PermissionAsked(msg.id.value)])
  {
    if msg.verb.options.Some? {
      RepliesExactlyWhen(msg.verb.options.value);
    }
  }

  lemma RepliesExactlyWhen(options: seq<PermissionOption>)
    ensures ChooseReply(options).None? <==> forall reply :: !RightReply(options, reply)
    ensures ChooseReply(options).Some? ==> RightReply(options, ChooseReply(options).value)
  {
    forall reply ensures ChooseReply(options) == Some(reply) <==> RightReply(options, reply) {
      ReplyIsRight(options, reply);
    }
  }

  // ----- Operations

  /** How a prompt begins: under the next id, against its own clock from before the write,
      steerable when a steer channel is installed, which it takes. */
  lemma PromptBegins(c: Client, op: Operation)
    requires op.SendPrompt?
    ensures var turn, st := PromptTurn(c, op), PromptStart(c, op);
            && turn == Turn(c.nextId, op.idleTimeout, op.maxDuration, c.steerInstalled)
            && st.now == op.now + op.writeTime && st.lastActivity == st.now
            && st.idleDeadline == st.now + op.idleTimeout && st.hardDeadline == op.now + op.maxDuration
            && st.client.currentHardDeadline == Some(st.hardDeadline) && st.client.lastPromptId == Some(c.nextId)
            && st.client.nextId == c.nextId + 1 && !st.client.steerInstalled
            && st.pending.None? && st.exit.None?
            && st.client.history.trace == c.history.trace + [Issued(c.nextId, Prompt)]
  {
  }

  /** The outcome after which a cancel is still to come. */
  predicate CutShort(exit: Option<Exit>) {
    exit.None? || (exit.value.Failed? && (exit.value.error.IdleTimeout? || exit.value.error.HardTimeout?))
  }

  /** What a prompt leaves behind: it stays marked as in flight, with its deadline, exactly
      when it timed out or was dropped, and is cleared on every other outcome. */
  lemma PromptLeavesBehind(c: Client, op: Operation)
    requires op.SendPrompt?
    ensures var after, exit := DoPrompt(c, op).0, DoPrompt(c, op).1;
            && after.lastPromptId == (if CutShort(exit) then Some(c.nextId) else None)
            && (after.currentHardDeadline.Some? <==> CutShort(exit))
            && (after.steerInstalled <==> c.steerInstalled && !op.write.Written?)
            && (op.write.WriteError? ==> exit == Some(Failed(WriteFailed)))
            && (op.write.Dropped? ==> exit.None?)
  {
    if op.write.Written? {
      var turn, st := PromptTurn(c, op), PromptStart(c, op);
      var end := Run(turn, st, op.ws);
      RunLeavesBehind(turn, st, op.ws, op.now + op.maxDuration);
      assert DoPrompt(c, op) == (SettlePrompt(end.client, end.exit), end.exit);
    }
  }

  lemma RunLeavesBehind(turn: Turn, st: Loop, ws: seq<Wake>, hard: nat)
    requires OnBudget(turn, hard, st.client.history.renewals, st) && Inherits(st)
    ensures var end := Run(turn, st, ws).client;
            && end.lastPromptId == st.client.lastPromptId && end.currentHardDeadline.Some?
            && end.steerInstalled == st.client.steerInstalled
  {
    RunKeepsPromptId(turn, st, ws);
    RunIsOnBudget(turn, st, ws, hard, st.client.history.renewals);
  }

  /** Without a prompt in flight a cancel is an error and does nothing but forget a deadline. */
  lemma CancelWithoutPrompt(c: Client, op: Operation)
    requires op.CancelTurn? && c.lastPromptId.None?
    ensures DoCancel(c, op) == (c.(currentHardDeadline := None), Some(Failed(ProtocolError)))
  {
  }

  /** An open permission request is answered as cancelled before the cancel is written. When
      either write fails, nothing more is written and the error is returned; a permission
      that could not be answered stays pending. */
  lemma CancelThatCannotBeWritten(c: Client, op: Operation, id: nat)
    requires op.CancelTurn? && c.lastPromptId == Some(id)
    requires var open := c.pendingPermission.Some? && !c.permissionResponded;
             (open && !op.replyOk) || !op.cancelOk
    ensures var open := c.pendingPermission.Some? && !c.permissionResponded;
            var after, exit := DoCancel(c, op).0, DoCancel(c, op).1;
            && exit == Some(Failed(WriteFailed)) && after.lastPromptId.None? && after.currentHardDeadline.None?
            && after.pendingPermission == (if open && !op.replyOk then c.pendingPermission else None)
            && after.history.trace ==
                 c.history.trace + if open && op.replyOk then [PermissionAnswered(c.pendingPermission.value, Cancelled)] else []
  {
  }

  /** The client once an open permission is answered and the cancel written. */
  function Interrupted(c: Client): Client {
    var open := c.pendingPermission.Some? && !c.permissionResponded;
    var answered := if open then c.Log(PermissionAnswered(c.pendingPermission.value, Cancelled)) else c;
    answered.(currentHardDeadline := None, lastPromptId := None, pendingPermission := None,
              permissionResponded := c.permissionResponded && c.pendingPermission.None?).Log(CancelSent)
  }

  lemma CancelIsWritten(c: Client, replyOk: bool)
    requires c.pendingPermission.Some? && !c.permissionResponded ==> replyOk
    ensures WriteCancel(c.(currentHardDeadline := None, lastPromptId := None), replyOk, true) == Handled(Interrupted(c), None)
  {
  }

  /** Otherwise the response of the cancelled prompt is drained: against the caller's grace
      window, or else the prompt's own deadline with a floor of thirty seconds. Only a grace
      window that ran out is reported as such. */
  lemma CancelDrains(c: Client, op: Operation, id: nat)
    requires op.CancelTurn? && c.lastPromptId == Some(id) && op.cancelOk
    requires c.pendingPermission.Some? && !c.permissionResponded ==> op.replyOk
    ensures var floor, now := op.now + 30, op.now + op.writeTime;
            var deadline := if op.grace.Some? then op.now + op.grace.value
                            else if c.currentHardDeadline.Some? && c.currentHardDeadline.value > floor then c.currentHardDeadline.value
                            else floor;
            var turn := Turn(id, 30, if now < deadline then deadline - now else 0, c.steerInstalled);
            var end := Run(turn, Loop(Interrupted(c).(steerInstalled := false), now, now + 30, deadline, now, None, None), op.ws);
            DoCancel(c, op) ==
              (end.client,
               if op.grace.Some? && end.exit.Some? && end.exit.value.Failed? && end.exit.value.error.HardTimeout?
               then Some(Failed(CancelDrainTimeout)) else end.exit)
  {
    CancelIsWritten(c, op.replyOk);
    var now, deadline := op.now + op.writeTime, CleanupDeadline(c.currentHardDeadline, op.now, op.grace);
    var turn := DrainTurn(c, id, deadline, now);
    assert Start(Interrupted(c), turn, now, deadline) ==
           Loop(Interrupted(c).(steerInstalled := false), now, now + 30, deadline, now, None, None);
  }

  /** End to end, a prompt completes with a value exactly when it was written and a success
      response to the id it took brought that value. */
  lemma PromptCompletesExactlyWhen(c: Client, op: Operation, v: nat)
    requires op.SendPrompt?
    ensures DoPrompt(c, op).1 == Some(Completed(v)) <==>
              op.write.Written? && Answered(c.nextId, c.history, DoPrompt(c, op).0.history, v)
  {
    var turn, st := PromptTurn(c, op), PromptStart(c, op);
    assert st == Start(st.client, turn, st.now, st.hardDeadline);
    IdRouting(turn, st.client, st.now, st.hardDeadline, op.ws, v);
    SameArrivals(turn.expectedId, c.history, st.client.history, DoPrompt(c, op).0.history, v);
  }

  lemma SameArrivals(id: nat, h: History, g: History, later: History, v: nat)
    requires h.received == g.received
    ensures Answered(id, h, later, v) <==> Answered(id, g, later, v)
  {
    if msg :| Arrived(h, later, msg) && IsResponseTo(msg, id) && msg.error.None? && msg.value == v {
      assert Arrived(g, later, msg);
    }
    if msg :| Arrived(g, later, msg) && IsResponseTo(msg, id) && msg.error.None? && msg.value == v {
      assert Arrived(h, later, msg);
    }
  }

  /** End to end, a plain request issues the next id and no other, and completes with a
      value exactly when it was written and a success response to that id brought it. */
  lemma RequestCompletesExactlyWhen(c: Client, write: WriteOutcome, ws: seq<Wake>, v: nat)
    ensures var after, exit := DoRequest(c, write, ws).0, DoRequest(c, write, ws).1;
            && (exit == Some(Completed(v)) <==> write.Written? && Answered(c.nextId, c.history, after.history, v))
            && after.nextId == c.nextId + 1 && after.history.issued == c.history.issued + multiset{c.nextId}
            && (write.WriteError? ==> exit == Some(Failed(WriteFailed)))
            && (write.Dropped? ==> exit == Some(Failed(RequestTimeout)))
  {
    var sent := c.Log(Issued(c.nextId, Request)).(nextId := c.nextId + 1);
    RequestRouting(c.nextId, sent, ws, v);
    RequestRunIssuesNothing(c.nextId, sent, ws);
    SameArrivals(c.nextId, c.history, sent.history, DoRequest(c, write, ws).0.history, v);
  }

  lemma {:induction false} RequestRunIssuesNothing(id: nat, c: Client, ws: seq<Wake>)
    ensures RequestRun(id, c, ws).0.nextId == c.nextId
    ensures RequestRun(id, c, ws).0.history.issued == c.history.issued
  {
    if ws != [] {
      RequestRunIssuesNothing(id, c, ws[..|ws| - 1]);
      var before, w := RequestRun(id, c, ws[..|ws| - 1]).0, ws[|ws| - 1];
      if w.event.Reads? && w.event.line.Json? {
        DispatchFrame(before.Log(Received(w.event.line.msg)), w.event.line.msg, w.writeOk);
      }
    }
  }

  /** How one wake-up of the plain loop ends it, if it does. */
  lemma RequestEndsExactlyWhen(id: nat, c: Client, w: Wake)
    ensures var exit := RequestStep(id, c, w).1;
            match w.event
            case DeadlineFires => exit == Some(Failed(RequestTimeout))
            case Eof => exit == Some(Failed(AgentExited))
            case LineTooLong => exit == Some(Failed(ProtocolError))
            case ReadFails => exit == Some(Failed(IoError))
            case Reads(Json(msg)) =>
              if msg.verb.NoMethod? && msg.id == Some(Num(id)) then
                exit == Some(
                  if msg.error.None? then Completed(msg.value)
                  else Failed(AgentReported(if msg.error.value.code.Some? then msg.error.value.code.value else -32000)))
              else
                && (exit.Some? <==> Breaks(msg, w.writeOk))
                && RequestStep(id, c, w).0 == Dispatch(c.Log(Received(msg)), msg, w.writeOk).client
            case _ => RequestStep(id, c, w) == (c, None)
  {
    if w.event.Reads? && w.event.line.Json? {
      DispatchFailsExactlyWhen(c.Log(Received(w.event.line.msg)), w.event.line.msg, w.writeOk);
    }
  }
}
