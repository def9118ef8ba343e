/** The steps of the harness's message loops: one wake-up at a time, over every
    order of agent lines, steer requests, deadlines and write failures. */
module PromptLoop {
  import opened Wrappers
  import opened AcpWire

  /** The client's own fields, with everything observed so far. */
  datatype Client = Client(
    nextId: nat, lastPromptId: Option<nat>, currentHardDeadline: Option<nat>,
    activeRunId: Option<string>, steeringSupported: bool,
    pendingPermission: Option<RpcId>, permissionResponded: bool, steerInstalled: bool,
    dequeued: nat, history: History)
  {
    function Log(o: Observation): Client {
      this.(history := history.Add(o))
    }
  }

  /** What the loop was asked to wait for. */
  datatype Turn = Turn(expectedId: nat, idleTimeout: nat, maxDuration: nat, steerable: bool)

  datatype PendingSteer = PendingSteer(id: nat, transport: SteerTransport, steer: nat)

  /** How the loop ended. `HandlerFailed` is an error propagated straight out of the
      reply to an agent request. */
  datatype Exit = Completed(value: nat) | Failed(error: AcpError) | HandlerFailed(error: AcpError)

  datatype Loop = Loop(
    client: Client, now: nat, idleDeadline: nat, hardDeadline: nat, lastActivity: nat,
    pending: Option<PendingSteer>, exit: Option<Exit>)
  {
    function NextDeadline(): nat {
      if idleDeadline < hardDeadline then idleDeadline else hardDeadline
    }

    function Log(o: Observation): Loop {
      this.(client := client.Log(o))
    }
  }

  datatype Event = Reads(line: Line) | Eof | LineTooLong | ReadFails | SteerArrives | DeadlineFires

  /** One wake-up of the loop: what woke it, how long it slept, whether a write made
      while handling it succeeds, and how long handling takes. */
  datatype Wake = Wake(event: Event, delay: nat, writeOk: bool, handling: nat)

  /** The loop as it begins; it takes the steer channel away from the client. */
  function Start(client: Client, turn: Turn, now: nat, hardDeadline: nat): Loop {
    Loop(client.(steerInstalled := false), now, now + turn.idleTimeout, hardDeadline, now, None, None)
  }

  /** Answer a withheld steer before returning. */
  function Release(st: Loop): Loop {
    if st.pending.None? then st
    else st.Log(Acked(st.pending.value.steer, PromptCompletedNeutral)).(pending := None)
  }

  function Return(st: Loop, exit: Exit): Loop {
    Release(st).(exit := Some(exit))
  }

  function TimeOut(st: Loop): Loop {
    Return(st, Failed(
      if st.idleDeadline < st.hardDeadline then IdleTimeout
      else HardTimeout(if st.now >= st.lastActivity then st.now - st.lastActivity else 0)))
  }

  function ChooseTransport(c: Client): Option<SteerTransport> {
    if c.activeRunId.Some? then Some(Goose) else if c.steeringSupported then Some(AcpExtension) else None
  }

  function DequeueSteer(st: Loop, writeOk: bool): Loop {
    var steer := st.client.dequeued;
    var c := st.client.Log(Dequeued(steer)).(dequeued := steer + 1);
    match ChooseTransport(c)
    case None => st.(client := c.Log(Acked(steer, Err(ExpectedRunIdMissing))))
    case Some(transport) =>
      var sent := c.Log(Issued(c.nextId, Steer(steer, transport))).(nextId := c.nextId + 1);
      if writeOk then st.(client := sent, pending := Some(PendingSteer(c.nextId, transport, steer)))
      else st.(client := sent.Log(Acked(steer, Err(TransportError))))
  }

  /** Whether a success response counts as a delivered steer. A goose agent reports no
      outcome; on the cross-adapter method an unknown outcome is a rejection. */
  predicate Delivers(transport: SteerTransport, msg: Message) {
    transport.Goose? || msg.outcome.Injected? || msg.outcome.StartedNewTurn?
  }

  function SteerAckFor(transport: SteerTransport, msg: Message): SteerAck {
    if msg.error.Some? then Err(AgentError(if msg.error.value.code.Some? then msg.error.value.code.value else -1))
    else if Delivers(transport, msg) then SteerSuccess
    else Err(OutcomeRejected(msg.outcome))
  }

  /** A steer delivered into a new turn does not extend the one that is awaited. */
  predicate Renews(transport: SteerTransport, msg: Message) {
    msg.error.None? && (transport.Goose? || msg.outcome.Injected?)
  }

  /** A response to the steer in flight: acknowledge it and keep reading. */
  function AnswerSteer(turn: Turn, st: Loop, msg: Message): Loop
    requires st.pending.Some?
  {
    var p := st.pending.value;
    var acked := st.Log(Acked(p.steer, SteerAckFor(p.transport, msg))).(pending := None);
    var renewed := st.now + turn.maxDuration;
    if Renews(p.transport, msg) && renewed > st.hardDeadline
    then acked.(client := acked.client.(currentHardDeadline := Some(renewed)).Log(Renewed(renewed)), hardDeadline := renewed)
    else acked
  }

  /** The reply to a permission request: the first `allow_once`, which must name its
      option, or else the first `reject_once`. */
  function ChooseReply(options: seq<PermissionOption>): Option<PermissionReply> {
    match FirstOfKind(options, AllowOnce)
    case Some(allow) => if allow.optionId.Some? then Some(Selected(allow.optionId.value)) else None
    case None =>
      match FirstOfKind(options, RejectOnce)
      case Some(reject) => Some(if reject.optionId.Some? then Selected(reject.optionId.value) else SelectedReject)
      case None => None
  }

  function FirstOfKind(options: seq<PermissionOption>, kind: OptionKind): Option<PermissionOption> {
    if options == [] then None
    else if options[0].kind == kind then Some(options[0])
    else FirstOfKind(options[1..], kind)
  }

  datatype Handled = Handled(client: Client, error: Option<AcpError>)

  /** Reply to `session/request_permission`: the id stays pending until the reply is written. */
  function AnswerPermission(c: Client, msg: Message, writeOk: bool): Handled
    requires msg.verb.RequestPermission?
  {
    if msg.id.None? then Handled(c, Some(ProtocolError)) else
    var asked := c.Log(PermissionAsked(msg.id.value)).(pendingPermission := msg.id, permissionResponded := false);
    var options := msg.verb.options;
    var reply := if options.Some? then ChooseReply(options.value) else None;
    if reply.None? then Handled(asked, Some(ProtocolError))
    else if !writeOk then Handled(asked, Some(WriteFailed))
    else Handled(
           asked.Log(PermissionAnswered(msg.id.value, reply.value)).(pendingPermission := None, permissionResponded := true),
           None)
  }

  /** Notifications and requests initiated by the agent. */
  function Dispatch(c: Client, msg: Message, writeOk: bool): Handled {
    match msg.verb
    case SessionUpdate(_, SetTo(run)) => Handled(c.(activeRunId := Some(run)), None)
    case SessionUpdate(_, Cleared) => Handled(c.(activeRunId := None), None)
    case RequestPermission(_) => AnswerPermission(c, msg, writeOk)
    case OtherMethod(_) =>
      if msg.id.None? then Handled(c, None)
      else if writeOk then Handled(c.Log(Refused(msg.id.value)), None)
      else Handled(c, Some(WriteFailed))
    case _ => Handled(c, None)
  }

  /** Any parsed line is activity: it pushes the idle deadline out. */
  function Activate(turn: Turn, st: Loop, msg: Message): Loop {
    st.Log(Received(msg)).(idleDeadline := st.now + turn.idleTimeout, lastActivity := st.now)
  }

  /** Serve a message that is no response to this loop; a failed reply ends it at once. */
  function ServeAgent(st: Loop, msg: Message, writeOk: bool): Loop {
    var handled := Dispatch(st.client, msg, writeOk);
    st.(client := handled.client,
        exit := if handled.error.Some? then Some(HandlerFailed(handled.error.value)) else None)
  }

  function ReadMessage(turn: Turn, st: Loop, msg: Message, writeOk: bool): Loop {
    var active := Activate(turn, st, msg);
    if active.pending.Some? && IsResponseTo(msg, active.pending.value.id) then
      AnswerSteer(turn, active, msg)
    else if IsResponseTo(msg, turn.expectedId) then
      Return(active, ResponseExit(msg))
    else
      ServeAgent(active, msg, writeOk)
  }

  function ResponseExit(msg: Message): Exit {
    if msg.error.Some? then Failed(AgentReported(ErrorCode(msg.error.value))) else Completed(msg.value)
  }

  function ErrorCode(e: ErrorField): int {
    if e.code.Some? then e.code.value else -32000
  }

  /** The part of an iteration after the select has woken up, at `st.now`. */
  function Handle(turn: Turn, st: Loop, w: Wake): Loop {
    match w.event
    case DeadlineFires => TimeOut(st)
    case Eof => Return(st, Failed(AgentExited))
    case LineTooLong => Return(st, Failed(ProtocolError))
    case ReadFails => Return(st, Failed(IoError))
    case SteerArrives => if turn.steerable && st.pending.None? then DequeueSteer(st, w.writeOk) else st
    case Reads(Json(msg)) => ReadMessage(turn, st, msg, w.writeOk)
    case Reads(_) => st
  }

  /** When the select wakes up: never after the next deadline. */
  function WakeTime(st: Loop, w: Wake): nat {
    if w.event.DeadlineFires? || st.now + w.delay > st.NextDeadline() then st.NextDeadline() else st.now + w.delay
  }

  /** One iteration of the loop. A loop that has returned stays as it is. */
  function Step(turn: Turn, st: Loop, w: Wake): Loop {
    if st.exit.Some? then st
    else if st.now >= st.NextDeadline() then TimeOut(st)
    else
      var done := Handle(turn, st.(now := WakeTime(st, w)), w);
      done.(now := done.now + w.handling)
  }

  /** The loop after a sequence of wake-ups. A sequence that ends before the loop
      returns is a prompt that is still running, or one whose caller dropped it. */
  function Run(turn: Turn, st: Loop, ws: seq<Wake>): Loop {
    if ws == [] then st else Step(turn, Run(turn, st, ws[..|ws| - 1]), ws[|ws| - 1])
  }

  // ----- The operations of the client

  /** One iteration of the plain loop that waits for the response to a non-prompt
      request. It has no steers; its only deadline is the caller's. */
  function RequestStep(expectedId: nat, c: Client, w: Wake): (Client, Option<Exit>) {
    match w.event
    case DeadlineFires => (c, Some(Failed(RequestTimeout)))
    case Eof => (c, Some(Failed(AgentExited)))
    case LineTooLong => (c, Some(Failed(ProtocolError)))
    case ReadFails => (c, Some(Failed(IoError)))
    case Reads(Json(msg)) =>
      var read := c.Log(Received(msg));
      if IsResponseTo(msg, expectedId) then
        (read, Some(ResponseExit(msg)))
      else
        var handled := Dispatch(read, msg, w.writeOk);
        (handled.client, if handled.error.Some? then Some(HandlerFailed(handled.error.value)) else None)
    case _ => (c, None)
  }

  function RequestRun(expectedId: nat, c: Client, ws: seq<Wake>): (Client, Option<Exit>) {
    if ws == [] then (c, None) else
    var before := RequestRun(expectedId, c, ws[..|ws| - 1]);
    if before.1.Some? then before else RequestStep(expectedId, before.0, ws[|ws| - 1])
  }

  /** A write either lands, fails, or is abandoned because the caller dropped it. */
  datatype WriteOutcome = Written | WriteError | Dropped

  datatype Operation =
    | InstallSteer
    | ClearSteer
    | SendRequest(write: WriteOutcome, ws: seq<Wake>)
    | SendPrompt(now: nat, idleTimeout: nat, maxDuration: nat, write: WriteOutcome, writeTime: nat, ws: seq<Wake>)
    | CancelTurn(now: nat, grace: Option<nat>, replyOk: bool, cancelOk: bool, writeTime: nat, ws: seq<Wake>)

  function DoRequest(c: Client, write: WriteOutcome, ws: seq<Wake>): (Client, Option<Exit>) {
    var sent := c.Log(Issued(c.nextId, Request)).(nextId := c.nextId + 1);
    match write
    case Written => RequestRun(c.nextId, sent, ws)
    case WriteError => (sent, Some(Failed(WriteFailed)))
    case Dropped => (sent, Some(Failed(RequestTimeout)))
  }

  /** The turn of a prompt and the loop that waits for its response. */
  function PromptTurn(c: Client, op: Operation): Turn
    requires op.SendPrompt?
  {
    Turn(c.nextId, op.idleTimeout, op.maxDuration, c.steerInstalled)
  }

  function PromptStart(c: Client, op: Operation): Loop
    requires op.SendPrompt?
  {
    var hard := op.now + op.maxDuration;
    var sent := c.(currentHardDeadline := Some(hard), lastPromptId := Some(c.nextId))
                 .Log(Issued(c.nextId, Prompt)).(nextId := c.nextId + 1);
    Start(sent, PromptTurn(c, op), op.now + op.writeTime, hard)
  }

  predicate IsTimeout(e: Exit) {
    e.Failed? && (e.error.IdleTimeout? || e.error.HardTimeout?)
  }

  /** Only a timeout leaves the prompt marked as in flight, for the cancel to come. */
  function SettlePrompt(c: Client, exit: Option<Exit>): Client {
    if exit.None? || IsTimeout(exit.value) then c else c.(lastPromptId := None, currentHardDeadline := None)
  }

  function DoPrompt(c: Client, op: Operation): (Client, Option<Exit>)
    requires op.SendPrompt?
  {
    var st := PromptStart(c, op);
    match op.write
    case Written =>
      var end := Run(PromptTurn(c, op), st, op.ws);
      (SettlePrompt(end.client, end.exit), end.exit)
    case WriteError =>
      (SettlePrompt(st.client.(steerInstalled := c.steerInstalled), Some(Failed(WriteFailed))), Some(Failed(WriteFailed)))
    case Dropped =>
      (st.client.(steerInstalled := c.steerInstalled), None)
  }

  /** What a prompt leaves is what its loop left, or its beginning, up to the marks. */
  lemma PromptOutcome(c: Client, op: Operation) returns (from: Client, after: Client)
    requires op.SendPrompt?
    ensures after == DoPrompt(c, op).0
    ensures from == if op.write.Written? then Run(PromptTurn(c, op), PromptStart(c, op), op.ws).client else PromptStart(c, op).client
    ensures after == from.(lastPromptId := after.lastPromptId, currentHardDeadline := after.currentHardDeadline,
                           steerInstalled := after.steerInstalled)
  {
    after := DoPrompt(c, op).0;
    from := if op.write.Written? then Run(PromptTurn(c, op), PromptStart(c, op), op.ws).client else PromptStart(c, op).client;
  }

  const CLEANUP_GRACE := 30

  /** The deadline a cancelled turn is drained against. */
  function CleanupDeadline(stored: Option<nat>, now: nat, grace: Option<nat>): nat {
    if grace.Some? then now + grace.value
    else if stored.Some? && stored.value > now + CLEANUP_GRACE then stored.value
    else now + CLEANUP_GRACE
  }

  /** Answer a permission request that is still open before cancelling. */
  function CancelPermission(c: Client, replyOk: bool): Handled {
    if c.pendingPermission.None? then Handled(c, None)
    else if !c.permissionResponded && !replyOk then Handled(c, Some(WriteFailed))
    else
      var answered := if c.permissionResponded then c else c.Log(PermissionAnswered(c.pendingPermission.value, Cancelled));
      Handled(answered.(pendingPermission := None, permissionResponded := false), None)
  }

  /** Answer an open permission request, then notify the agent of the cancel. */
  function WriteCancel(c: Client, replyOk: bool, cancelOk: bool): Handled {
    var handled := CancelPermission(c, replyOk);
    if handled.error.Some? then handled
    else if !cancelOk then Handled(handled.client, Some(WriteFailed))
    else Handled(handled.client.Log(CancelSent), None)
  }

  function DrainTurn(c: Client, promptId: nat, deadline: nat, now: nat): Turn {
    Turn(promptId, CLEANUP_GRACE, if deadline > now then deadline - now else 0, c.steerInstalled)
  }

  function DoCancel(c: Client, op: Operation): (Client, Option<Exit>)
    requires op.CancelTurn?
  {
    var deadline := CleanupDeadline(c.currentHardDeadline, op.now, op.grace);
    var c1 := c.(currentHardDeadline := None);
    if c.lastPromptId.None? then (c1, Some(Failed(ProtocolError))) else
    var handled := WriteCancel(c1.(lastPromptId := None), op.replyOk, op.cancelOk);
    if handled.error.Some? then (handled.client, Some(Failed(handled.error.value))) else
      var now := op.now + op.writeTime;
      var turn := DrainTurn(c, c.lastPromptId.value, deadline, now);
      var end := Run(turn, Start(handled.client, turn, now, deadline), op.ws);
      (end.client,
       if op.grace.Some? && end.exit.Some? && end.exit.value.Failed? && end.exit.value.error.HardTimeout?
       then Some(Failed(CancelDrainTimeout)) else end.exit)
  }

  /** What a cancel leaves: nothing but cleared marks, the writes alone, or a drained loop. */
  lemma CancelOutcome(c: Client, op: Operation) returns (ready: Client, after: Client)
    requires op.CancelTurn?
    ensures after == DoCancel(c, op).0 && ready == c.(currentHardDeadline := None, lastPromptId := None)
    ensures c.lastPromptId.None? ==> after == ready
    ensures c.lastPromptId.Some? ==>
              var written := WriteCancel(ready, op.replyOk, op.cancelOk).client;
              var deadline, now := CleanupDeadline(c.currentHardDeadline, op.now, op.grace), op.now + op.writeTime;
              var turn := DrainTurn(c, c.lastPromptId.value, deadline, now);
              after == written || after == Run(turn, Start(written, turn, now, deadline), op.ws).client
  {
    ready := c.(currentHardDeadline := None, lastPromptId := None);
    after := DoCancel(c, op).0;
  }

  function Apply(c: Client, op: Operation): Client {
    match op
    case InstallSteer => c.(steerInstalled := true)
    case ClearSteer => c.(steerInstalled := false)
    case SendRequest(write, ws) => DoRequest(c, write, ws).0
    case SendPrompt(_, _, _, _, _, _) => DoPrompt(c, op).0
    case CancelTurn(_, _, _, _, _, _) => DoCancel(c, op).0
  }

  function ApplyAll(c: Client, ops: seq<Operation>): Client {
    if ops == [] then c else Apply(ApplyAll(c, ops[..|ops| - 1]), ops[|ops| - 1])
  }

  function NewClient(steeringSupported: bool): Client {
    Client(0, None, None, None, steeringSupported, None, false, false, 0, NO_HISTORY)
  }
}
