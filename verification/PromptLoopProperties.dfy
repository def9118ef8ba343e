/** What every run of the message loops keeps. */
module PromptLoopProperties {
  import opened Wrappers
  import opened AcpWire
  import opened PromptLoop
  import opened PromptTrace

  /** Serving the agent's own messages touches only permissions and the run id. */
  lemma DispatchFrame(c: Client, msg: Message, writeOk: bool)
    ensures var after := Dispatch(c, msg, writeOk).client;
            && after.nextId == c.nextId && after.dequeued == c.dequeued
            && after.currentHardDeadline == c.currentHardDeadline && after.lastPromptId == c.lastPromptId
            && after.steerInstalled == c.steerInstalled
            && after.history.issued == c.history.issued && after.history.acks == c.history.acks
            && after.history.received == c.history.received && after.history.renewals == c.history.renewals
  {
    if msg.verb.RequestPermission? {
      PermissionFrame(c, msg, writeOk);
    }
  }

  lemma PermissionFrame(c: Client, msg: Message, writeOk: bool)
    requires msg.verb.RequestPermission?
    ensures var after := AnswerPermission(c, msg, writeOk).client;
            after == c.(pendingPermission := after.pendingPermission, permissionResponded := after.permissionResponded,
                        history := c.history.(trace := after.history.trace, asked := after.history.asked,
                                              answered := after.history.answered))
  {
  }

  // ----- Request ids

  /** Id `n` was issued at most once, and not at all while the counter has not passed it. */
  predicate IdFresh(c: Client, n: nat) {
    c.history.issued[n] <= if n < c.nextId then 1 else 0
  }

  lemma ReadIssuesNothing(turn: Turn, st: Loop, msg: Message, writeOk: bool)
    ensures var after := ReadMessage(turn, st, msg, writeOk).client;
            && after.history.issued == st.client.history.issued && after.nextId == st.client.nextId
            && after.lastPromptId == st.client.lastPromptId && after.steerInstalled == st.client.steerInstalled
            && after.history.received == st.client.history.received + multiset{msg}
  {
    var active := Activate(turn, st, msg);
    if active.pending.Some? && IsResponseTo(msg, active.pending.value.id) {
      AnswerIssuesNothing(turn, active, msg);
    } else if !IsResponseTo(msg, turn.expectedId) {
      DispatchFrame(active.client, msg, writeOk);
    }
  }

  lemma AnswerIssuesNothing(turn: Turn, st: Loop, msg: Message)
    requires st.pending.Some?
    ensures var after := AnswerSteer(turn, st, msg).client;
            && after.history.issued == st.client.history.issued && after.nextId == st.client.nextId
            && after.lastPromptId == st.client.lastPromptId && after.steerInstalled == st.client.steerInstalled
            && after.history.received == st.client.history.received
  {
  }

  lemma HandleKeepsIds(n: nat, turn: Turn, st: Loop, w: Wake)
    requires IdFresh(st.client, n)
    ensures IdFresh(Handle(turn, st, w).client, n)
    ensures st.client.nextId <= Handle(turn, st, w).client.nextId
  {
    if w.event.Reads? && w.event.line.Json? {
      ReadIssuesNothing(turn, st, w.event.line.msg, w.writeOk);
    }
  }

  lemma StepKeepsIds(n: nat, turn: Turn, st: Loop, w: Wake)
    requires IdFresh(st.client, n)
    ensures IdFresh(Step(turn, st, w).client, n)
    ensures st.client.nextId <= Step(turn, st, w).client.nextId
  {
    HandleKeepsIds(n, turn, st.(now := WakeTime(st, w)), w);
  }

  // ----- Acknowledgements

  /** `d` steers were dequeued before the loop began. Every later one has been
      acknowledged exactly once, except the one in flight, which has not been.
      Stated of one steer `k`. */
  predicate AcksExact(d: nat, st: Loop, k: nat) {
    var acks := st.client.history.acks[k];
    && acks <= (if k < st.client.dequeued then 1 else 0)
    && d <= st.client.dequeued
    && (d <= k < st.client.dequeued ==> acks == if InFlight(st, k) then 0 else 1)
    && (st.pending.Some? ==> d <= st.pending.value.steer < st.client.dequeued)
    && (st.exit.Some? && !st.exit.value.HandlerFailed? ==> st.pending.None?)
  }

  predicate InFlight(st: Loop, k: nat) {
    st.pending.Some? && st.pending.value.steer == k
  }

  lemma ReturnKeepsAcks(d: nat, k: nat, st: Loop, exit: Exit)
    requires AcksExact(d, st, k)
    ensures AcksExact(d, Return(st, exit), k)
  {
  }

  lemma DequeueKeepsAcks(d: nat, k: nat, st: Loop, writeOk: bool)
    requires AcksExact(d, st, k) && st.pending.None? && st.exit.None?
    ensures AcksExact(d, DequeueSteer(st, writeOk), k)
  {
  }

  lemma AnswerKeepsAcks(d: nat, k: nat, turn: Turn, st: Loop, msg: Message)
    requires AcksExact(d, st, k) && st.pending.Some? && st.exit.None?
    ensures AcksExact(d, AnswerSteer(turn, st, msg), k)
  {
  }

  lemma ReadKeepsAcks(d: nat, k: nat, turn: Turn, st: Loop, msg: Message, writeOk: bool)
    requires AcksExact(d, st, k) && st.exit.None?
    ensures AcksExact(d, ReadMessage(turn, st, msg, writeOk), k)
  {
    var active := Activate(turn, st, msg);
    assert AcksExact(d, active, k);
    if active.pending.Some? && IsResponseTo(msg, active.pending.value.id) {
      AnswerKeepsAcks(d, k, turn, active, msg);
    } else if !IsResponseTo(msg, turn.expectedId) {
      DispatchFrame(active.client, msg, writeOk);
    }
  }

  lemma HandleKeepsAcks(d: nat, k: nat, turn: Turn, st: Loop, w: Wake)
    requires AcksExact(d, st, k) && st.exit.None?
    ensures AcksExact(d, Handle(turn, st, w), k)
  {
    match w.event
    case Reads(Json(msg)) => ReadKeepsAcks(d, k, turn, st, msg, w.writeOk);
    case SteerArrives =>
      if turn.steerable && st.pending.None? {
        DequeueKeepsAcks(d, k, st, w.writeOk);
      }
    case DeadlineFires => ReturnKeepsAcks(d, k, st, TimeOut(st).exit.value);
    case _ =>
  }

  lemma StepKeepsAcks(d: nat, k: nat, turn: Turn, st: Loop, w: Wake)
    requires AcksExact(d, st, k)
    ensures AcksExact(d, Step(turn, st, w), k)
  {
    if st.exit.None? {
      if st.now >= st.NextDeadline() {
        ReturnKeepsAcks(d, k, st, TimeOut(st).exit.value);
      } else {
        var woken := st.(now := WakeTime(st, w));
        assert AcksExact(d, woken, k);
        HandleKeepsAcks(d, k, turn, woken, w);
      }
    }
  }

  lemma {:induction false} RunKeepsAcks(d: nat, k: nat, turn: Turn, st: Loop, ws: seq<Wake>)
    requires AcksExact(d, st, k)
    ensures AcksExact(d, Run(turn, st, ws), k)
  {
    if ws != [] {
      RunKeepsAcks(d, k, turn, st, ws[..|ws| - 1]);
      StepKeepsAcks(d, k, turn, Run(turn, st, ws[..|ws| - 1]), ws[|ws| - 1]);
    }
  }

  /** No steer was acknowledged twice, and none that is still to come. */
  ghost predicate AcksSound(c: Client) {
    forall k :: c.history.acks[k] <= if k < c.dequeued then 1 else 0
  }

  /** Ack discipline over a whole run: no steer is acknowledged twice; every steer that the
      loop dequeued has been acknowledged exactly once, except the one in flight, which has
      not been; and none is in flight once the loop has returned, unless serving a message
      of the agent failed. `AckIsLostExactlyWhen` says which inputs do that. */
  lemma SteerAckDiscipline(turn: Turn, c: Client, now: nat, hardDeadline: nat, ws: seq<Wake>)
    requires AcksSound(c)
    ensures var end := Run(turn, Start(c, turn, now, hardDeadline), ws);
            && AcksSound(end.client)
            && (forall k :: c.dequeued <= k < end.client.dequeued ==>
                  end.client.history.acks[k] == if InFlight(end, k) then 0 else 1)
            && (end.exit.Some? && !end.exit.value.HandlerFailed? ==> end.pending.None?)
  {
    var st := Start(c, turn, now, hardDeadline);
    var end := Run(turn, st, ws);
    forall k: nat
      ensures end.client.history.acks[k] <= if k < end.client.dequeued then 1 else 0
      ensures c.dequeued <= k < end.client.dequeued ==> end.client.history.acks[k] == if InFlight(end, k) then 0 else 1
      ensures end.exit.Some? && !end.exit.value.HandlerFailed? ==> end.pending.None?
    {
      RunKeepsAcks(c.dequeued, k, turn, st, ws);
    }
    RunKeepsAcks(c.dequeued, 0, turn, st, ws);
  }

  /** Serving the message ends the loop at once: a permission request without an id, without
      options, or without an option to reply with; or one whose reply, or the refusal of an
      unknown request, cannot be written. */
  predicate Breaks(msg: Message, writeOk: bool) {
    match msg.verb
    case RequestPermission(options) =>
      msg.id.None? || options.None? || ChooseReply(options.value).None? || !writeOk
    case OtherMethod(_) => msg.id.Some? && !writeOk
    case _ => false
  }

  predicate BreaksOn(w: Wake) {
    w.event.Reads? && w.event.line.Json? && Breaks(w.event.line.msg, w.writeOk)
  }

  lemma DispatchFailsExactlyWhen(c: Client, msg: Message, writeOk: bool)
    ensures Dispatch(c, msg, writeOk).error.Some? <==> Breaks(msg, writeOk)
  {
  }

  lemma ReadFailsExactlyWhen(turn: Turn, st: Loop, msg: Message, writeOk: bool)
    requires st.exit.None?
    ensures var after := ReadMessage(turn, st, msg, writeOk);
            && (after.exit.Some? && after.exit.value.HandlerFailed? <==> Breaks(msg, writeOk))
            && (Breaks(msg, writeOk) ==> after.pending == st.pending)
            && (after.exit.Some? && !Breaks(msg, writeOk) ==> after.pending.None?)
  {
    DispatchFailsExactlyWhen(Activate(turn, st, msg).client, msg, writeOk);
  }

  /** When an iteration returns and leaves a steer in flight without its ack: exactly when
      one was in flight, no deadline had passed, and the line that woke the loop holds a
      message it cannot serve. */
  lemma StepLosesAckExactlyWhen(turn: Turn, st: Loop, w: Wake)
    requires st.exit.None?
    ensures var after := Step(turn, st, w);
            after.exit.Some? && after.pending.Some? <==> st.pending.Some? && st.now < st.NextDeadline() && BreaksOn(w)
    ensures Step(turn, st, w).exit.Some? && Step(turn, st, w).pending.Some? ==> Step(turn, st, w).pending == st.pending
  {
    if st.now < st.NextDeadline() && w.event.Reads? && w.event.line.Json? {
      ReadFailsExactlyWhen(turn, st.(now := WakeTime(st, w)), w.event.line.msg, w.writeOk);
    }
  }

  /** At wake-up `i` of the script the loop is live, holds a steer in flight and reads a
      message it cannot serve before any deadline. */
  predicate BreaksAt(turn: Turn, st: Loop, ws: seq<Wake>, i: nat)
    requires i < |ws|
  {
    var live := Run(turn, st, ws[..i]);
    live.exit.None? && live.pending.Some? && live.now < live.NextDeadline() && BreaksOn(ws[i])
  }

  lemma {:induction false} RunLosesAckExactlyWhen(turn: Turn, st: Loop, ws: seq<Wake>)
    requires st.exit.None?
    ensures Run(turn, st, ws).exit.Some? && Run(turn, st, ws).pending.Some? <==>
              exists i :: 0 <= i < |ws| && BreaksAt(turn, st, ws, i)
  {
    if ws != [] {
      var n := |ws| - 1;
      var front := ws[..n];
      var before := Run(turn, st, front);
      RunLosesAckExactlyWhen(turn, st, front);
      if before.exit.None? {
        StepLosesAckExactlyWhen(turn, before, ws[n]);
      }
      assert forall i :: 0 <= i < n ==> front[..i] == ws[..i];
      assert forall i :: 0 <= i < n ==> (BreaksAt(turn, st, front, i) <==> BreaksAt(turn, st, ws, i));
      assert BreaksAt(turn, st, ws, n) <==> before.exit.None? && before.pending.Some? && before.now < before.NextDeadline() && BreaksOn(ws[n]);
    }
  }

  /** The exact condition under which a loop that returned never answered some steer it had
      dequeued: it read a message it could not serve while that steer was in flight. */
  lemma AckIsLostExactlyWhen(turn: Turn, c: Client, now: nat, hardDeadline: nat, ws: seq<Wake>)
    requires AcksSound(c)
    ensures var st := Start(c, turn, now, hardDeadline);
            var end := Run(turn, st, ws);
            end.exit.Some? ==>
              ((exists k :: c.dequeued <= k < end.client.dequeued && end.client.history.acks[k] == 0) <==>
               exists i :: 0 <= i < |ws| && BreaksAt(turn, st, ws, i))
  {
    var st := Start(c, turn, now, hardDeadline);
    var end := Run(turn, st, ws);
    SteerAckDiscipline(turn, c, now, hardDeadline, ws);
    RunLosesAckExactlyWhen(turn, st, ws);
    RunKeepsAcks(c.dequeued, 0, turn, st, ws);
    if end.pending.Some? {
      assert InFlight(end, end.pending.value.steer);
      assert end.client.history.acks[end.pending.value.steer] == 0;
    }
  }

  /** What a caller can rely on: if the agent sends nothing that cannot be served and no
      reply fails to be written, every steer is answered exactly once on return. */
  lemma EverySteerIsAnswered(turn: Turn, c: Client, now: nat, hardDeadline: nat, ws: seq<Wake>)
    requires AcksSound(c) && forall i :: 0 <= i < |ws| ==> !BreaksOn(ws[i])
    ensures var end := Run(turn, Start(c, turn, now, hardDeadline), ws);
            end.exit.Some? ==> forall k :: c.dequeued <= k < end.client.dequeued ==> end.client.history.acks[k] == 1
  {
    var st := Start(c, turn, now, hardDeadline);
    SteerAckDiscipline(turn, c, now, hardDeadline, ws);
    RunLosesAckExactlyWhen(turn, st, ws);
  }

  /** A steer is sent, then the message arrives: the loop has returned and the steer was
      never answered. */
  predicate LosesAnAck(c: Client, msg: Message, writeOk: bool) {
    var turn := Turn(0, 10, 100, true);
    var sent := Step(turn, Start(c, turn, 0, 100), Wake(SteerArrives, 0, true, 0));
    var end := Step(turn, sent, Wake(Reads(Json(msg)), 0, writeOk, 0));
    end.exit.Some? && end.client.dequeued == c.dequeued + 1 && end.client.history.acks[c.dequeued] == 0
  }

  /** Every such message does lose an ack, whatever the client: it need only arrive while a
      steer is in flight. */
  lemma EveryBreakCanLoseAnAck(c: Client, msg: Message, writeOk: bool)
    requires AcksSound(c) && (c.activeRunId.Some? || c.steeringSupported) && Breaks(msg, writeOk)
    ensures LosesAnAck(c, msg, writeOk)
  {
    var turn := Turn(0, 10, 100, true);
    var st := Start(c, turn, 0, 100);
    var w, v := Wake(SteerArrives, 0, true, 0), Wake(Reads(Json(msg)), 0, writeOk, 0);
    assert WakeTime(st, w) == 0;
    var sent := Step(turn, st, w);
    assert sent == DequeueSteer(st, true);
    assert sent.pending.Some? && sent.client.history.acks == c.history.acks;
    StepLosesAckExactlyWhen(turn, sent, v);
    var active := Activate(turn, sent, msg);
    DispatchFrame(active.client, msg, writeOk);
    assert Step(turn, sent, v).client == Dispatch(active.client, msg, writeOk).client;
  }

  /** Instances at both exits: a permission request without options while every write
      succeeds, one whose reply cannot be written, and an unknown request whose refusal
      cannot be written. */
  lemma LostAckExample(c: Client, id: RpcId, options: Option<seq<PermissionOption>>, name: string)
    requires AcksSound(c) && (c.activeRunId.Some? || c.steeringSupported)
    ensures LosesAnAck(c, Message(Some(id), RequestPermission(None), None, Absent, 0), true)
    ensures LosesAnAck(c, Message(Some(id), RequestPermission(options), None, Absent, 0), false)
    ensures LosesAnAck(c, Message(Some(id), OtherMethod(name), None, Absent, 0), false)
  {
    EveryBreakCanLoseAnAck(c, Message(Some(id), RequestPermission(None), None, Absent, 0), true);
    EveryBreakCanLoseAnAck(c, Message(Some(id), RequestPermission(options), None, Absent, 0), false);
    EveryBreakCanLoseAnAck(c, Message(Some(id), OtherMethod(name), None, Absent, 0), false);
  }

  // ----- Deadlines

  /** `k` durations of `d` each. */
  function Extra(k: nat, d: nat): nat {
    if k == 0 then 0 else Extra(k - 1, d) + d
  }

  lemma {:induction false} ExtraIsProduct(k: nat, d: nat)
    ensures Extra(k, d) == k * d
  {
    if k > 0 {
      ExtraIsProduct(k - 1, d);
      assert k * d == (k - 1) * d + d;
    }
  }

  /** `hard` and `renewals` are those of the loop's beginning. */
  predicate OnBudget(turn: Turn, hard: nat, renewals: nat, st: Loop) {
    && st.idleDeadline == st.lastActivity + turn.idleTimeout
    && renewals <= st.client.history.renewals
    && hard <= st.hardDeadline <= hard + Extra(st.client.history.renewals - renewals, turn.maxDuration)
  }

  /** What a step may do to the hard deadline: nothing, or one renewal. */
  predicate RenewsAtMostOnce(turn: Turn, st: Loop, after: Loop) {
    && st.hardDeadline <= after.hardDeadline <= st.hardDeadline + turn.maxDuration
    && after.client.history.renewals ==
         st.client.history.renewals + (if after.hardDeadline == st.hardDeadline then 0 else 1)
    && after.client.currentHardDeadline ==
         if after.hardDeadline == st.hardDeadline then st.client.currentHardDeadline else Some(after.hardDeadline)
  }

  /** The message reports that the steer in flight was injected into the awaited turn. */
  predicate ReportsInjection(st: Loop, msg: Message) {
    && st.pending.Some? && IsResponseTo(msg, st.pending.value.id) && msg.error.None?
    && (st.pending.value.transport.Goose? || msg.outcome.Injected?)
  }

  lemma AnswerRenews(turn: Turn, st: Loop, msg: Message)
    requires st.now <= st.hardDeadline && st.pending.Some? && IsResponseTo(msg, st.pending.value.id)
    ensures var after := AnswerSteer(turn, st, msg);
            RenewsAtMostOnce(turn, st, after) && (after.hardDeadline != st.hardDeadline ==> ReportsInjection(st, msg))
  {
  }

  lemma ReadRenews(turn: Turn, st: Loop, msg: Message, writeOk: bool)
    requires st.now <= st.hardDeadline
    ensures var after := ReadMessage(turn, st, msg, writeOk);
            RenewsAtMostOnce(turn, st, after) && (after.hardDeadline != st.hardDeadline ==> ReportsInjection(st, msg))
  {
    var active := Activate(turn, st, msg);
    if active.pending.Some? && IsResponseTo(msg, active.pending.value.id) {
      AnswerRenews(turn, active, msg);
    } else if !IsResponseTo(msg, turn.expectedId) {
      DispatchFrame(active.client, msg, writeOk);
    }
  }

  lemma DequeueRenewsNothing(turn: Turn, st: Loop, writeOk: bool)
    ensures RenewsAtMostOnce(turn, st, DequeueSteer(st, writeOk)) && DequeueSteer(st, writeOk).hardDeadline == st.hardDeadline
  {
  }

  lemma HandleRenews(turn: Turn, st: Loop, w: Wake)
    requires st.now <= st.hardDeadline
    ensures var after := Handle(turn, st, w);
            && RenewsAtMostOnce(turn, st, after)
            && (after.hardDeadline != st.hardDeadline ==>
                  w.event.Reads? && w.event.line.Json? && ReportsInjection(st, w.event.line.msg))
  {
    match w.event
    case Reads(Json(msg)) => ReadRenews(turn, st, msg, w.writeOk);
    case SteerArrives => DequeueRenewsNothing(turn, st, w.writeOk);
    case _ =>
  }

  /** Only the response to the steer in flight, reporting that it was injected into
      the awaited turn, moves the hard deadline, and by at most the turn's duration. */
  lemma OnlyInjectionRenews(turn: Turn, st: Loop, w: Wake)
    ensures var after := Step(turn, st, w);
            && RenewsAtMostOnce(turn, st, after)
            && (after.hardDeadline != st.hardDeadline ==>
                  w.event.Reads? && w.event.line.Json? && ReportsInjection(st, w.event.line.msg))
  {
    var woken := st.(now := WakeTime(st, w));
    if st.exit.None? && st.now < st.NextDeadline() {
      HandleRenews(turn, woken, w);
    }
  }

  lemma IdleClockFollowsActivity(turn: Turn, st: Loop, w: Wake)
    requires st.idleDeadline == st.lastActivity + turn.idleTimeout
    ensures var after := Step(turn, st, w);
            after.idleDeadline == after.lastActivity + turn.idleTimeout
  {
  }

  /** The client's stored deadline is the loop's own, when it was so at the beginning. */
  predicate Inherits(st: Loop) {
    st.client.currentHardDeadline == Some(st.hardDeadline)
  }

  lemma StepIsOnBudget(turn: Turn, hard: nat, renewals: nat, st: Loop, w: Wake)
    requires OnBudget(turn, hard, renewals, st)
    ensures OnBudget(turn, hard, renewals, Step(turn, st, w))
    ensures Inherits(st) ==> Inherits(Step(turn, st, w))
  {
    var after := Step(turn, st, w);
    OnlyInjectionRenews(turn, st, w);
    IdleClockFollowsActivity(turn, st, w);
    assert RenewsAtMostOnce(turn, st, after);
    BudgetGrows(turn, hard, renewals, st, after);
  }

  lemma BudgetGrows(turn: Turn, hard: nat, renewals: nat, st: Loop, after: Loop)
    requires OnBudget(turn, hard, renewals, st) && RenewsAtMostOnce(turn, st, after)
    requires after.idleDeadline == after.lastActivity + turn.idleTimeout
    ensures OnBudget(turn, hard, renewals, after)
  {
    assert Extra(st.client.history.renewals + 1 - renewals, turn.maxDuration) ==
           Extra(st.client.history.renewals - renewals, turn.maxDuration) + turn.maxDuration;
  }

  lemma {:induction false} RunIsOnBudget(turn: Turn, st: Loop, ws: seq<Wake>, hard: nat, renewals: nat)
    requires OnBudget(turn, hard, renewals, st)
    ensures OnBudget(turn, hard, renewals, Run(turn, st, ws))
    ensures Inherits(st) ==> Inherits(Run(turn, st, ws))
  {
    if ws != [] {
      RunIsOnBudget(turn, st, ws[..|ws| - 1], hard, renewals);
      StepIsOnBudget(turn, hard, renewals, Run(turn, st, ws[..|ws| - 1]), ws[|ws| - 1]);
    }
  }

  lemma LiveStepIsEarly(turn: Turn, hard: nat, renewals: nat, st: Loop, w: Wake)
    requires OnBudget(turn, hard, renewals, st) && Step(turn, st, w).exit.None?
    ensures st.now < st.hardDeadline && st.now < st.lastActivity + turn.idleTimeout
    ensures st.now < hard + Extra(st.client.history.renewals - renewals, turn.maxDuration)
  {
  }

  /** However fast the agent streams, an iteration that does not return begins before
      the original hard deadline plus one turn duration per renewal. */
  lemma HardDeadlineBound(turn: Turn, c: Client, now: nat, hard: nat, ws: seq<Wake>, w: Wake, st: Loop)
    requires st == Run(turn, Start(c, turn, now, hard), ws) && Step(turn, st, w).exit.None?
    ensures st.now < st.hardDeadline && st.now < st.lastActivity + turn.idleTimeout
    ensures c.history.renewals <= st.client.history.renewals
    ensures st.now < hard + Extra(st.client.history.renewals - c.history.renewals, turn.maxDuration)
  {
    RunIsOnBudget(turn, Start(c, turn, now, hard), ws, hard, c.history.renewals);
    LiveStepIsEarly(turn, hard, c.history.renewals, st, w);
  }

  // ----- Routing

  /** The message arrived between the histories `h` and `later`. */
  predicate Arrived(h: History, later: History, msg: Message) {
    later.received[msg] > h.received[msg]
  }

  /** Between them, a success response to request `id` brought `v`. */
  ghost predicate Answered(id: nat, h: History, later: History, v: nat) {
    exists msg :: Arrived(h, later, msg) && IsResponseTo(msg, id) && msg.error.None? && msg.value == v
  }

  /** Ids of steers are issued after `firstId`; a loop that completed was answered. */
  ghost predicate Routed(turn: Turn, h: History, firstId: nat, st: Loop) {
    && firstId <= st.client.nextId
    && (st.pending.Some? ==> firstId <= st.pending.value.id)
    && (st.exit.Some? && st.exit.value.Completed? ==> Answered(turn.expectedId, h, st.client.history, st.exit.value.value))
  }

  /** A response to the awaited request ends the loop. Stated of one message. */
  predicate Concluded(turn: Turn, h: History, st: Loop, msg: Message) {
    && h.received[msg] <= st.client.history.received[msg]
    && (IsResponseTo(msg, turn.expectedId) && Arrived(h, st.client.history, msg) ==> st.exit == Some(ResponseExit(msg)))
  }

  lemma ReadRoutes(turn: Turn, h: History, firstId: nat, st: Loop, m: Message, writeOk: bool)
    requires turn.expectedId < firstId && Routed(turn, h, firstId, st) && st.exit.None?
    requires h.received[m] <= st.client.history.received[m]
    ensures Routed(turn, h, firstId, ReadMessage(turn, st, m, writeOk))
  {
    ReadIssuesNothing(turn, st, m, writeOk);
    var after := ReadMessage(turn, st, m, writeOk);
    if after.exit.Some? && after.exit.value.Completed? {
      assert Arrived(h, after.client.history, m);
    }
  }

  lemma StepRoutes(turn: Turn, h: History, firstId: nat, st: Loop, w: Wake)
    requires turn.expectedId < firstId && Routed(turn, h, firstId, st)
    requires w.event.Reads? && w.event.line.Json? ==> h.received[w.event.line.msg] <= st.client.history.received[w.event.line.msg]
    ensures Routed(turn, h, firstId, Step(turn, st, w))
  {
    if st.exit.None? && st.now < st.NextDeadline() && w.event.Reads? && w.event.line.Json? {
      var woken, msg := st.(now := WakeTime(st, w)), w.event.line.msg;
      assert Routed(turn, h, firstId, woken);
      ReadRoutes(turn, h, firstId, woken, msg, w.writeOk);
      var done, after := ReadMessage(turn, woken, msg, w.writeOk), Step(turn, st, w);
      if after.exit.Some? && after.exit.value.Completed? {
        var v := after.exit.value.value;
        var m :| Arrived(h, done.client.history, m) && IsResponseTo(m, turn.expectedId) && m.error.None? && m.value == v;
        assert Arrived(h, after.client.history, m);
      }
    }
  }

  lemma ReadConcludes(turn: Turn, h: History, firstId: nat, st: Loop, m: Message, writeOk: bool, msg: Message)
    requires turn.expectedId < firstId && st.exit.None? && (st.pending.Some? ==> firstId <= st.pending.value.id)
    requires Concluded(turn, h, st, msg)
    ensures Concluded(turn, h, ReadMessage(turn, st, m, writeOk), msg)
  {
    ReadIssuesNothing(turn, st, m, writeOk);
  }

  lemma StepConcludes(turn: Turn, h: History, firstId: nat, st: Loop, w: Wake, msg: Message)
    requires turn.expectedId < firstId && (st.pending.Some? ==> firstId <= st.pending.value.id)
    requires Concluded(turn, h, st, msg)
    ensures Concluded(turn, h, Step(turn, st, w), msg)
  {
    if st.exit.None? {
      var woken := st.(now := WakeTime(st, w));
      if w.event.Reads? && w.event.line.Json? {
        ReadConcludes(turn, h, firstId, woken, w.event.line.msg, w.writeOk, msg);
      }
    }
  }

  lemma {:induction false} RunRoutes(turn: Turn, c: Client, now: nat, hard: nat, ws: seq<Wake>)
    requires turn.expectedId < c.nextId
    ensures Routed(turn, c.history, c.nextId, Run(turn, Start(c, turn, now, hard), ws))
    decreases |ws|, 1
  {
    if ws != [] {
      var st, w := Run(turn, Start(c, turn, now, hard), ws[..|ws| - 1]), ws[|ws| - 1];
      RunRoutes(turn, c, now, hard, ws[..|ws| - 1]);
      if w.event.Reads? && w.event.line.Json? {
        RunConcludes(turn, c, now, hard, ws[..|ws| - 1], w.event.line.msg);
      }
      StepRoutes(turn, c.history, c.nextId, st, w);
    }
  }

  lemma {:induction false} RunConcludes(turn: Turn, c: Client, now: nat, hard: nat, ws: seq<Wake>, msg: Message)
    requires turn.expectedId < c.nextId
    ensures Concluded(turn, c.history, Run(turn, Start(c, turn, now, hard), ws), msg)
    decreases |ws|, 0
  {
    if ws != [] {
      var st := Run(turn, Start(c, turn, now, hard), ws[..|ws| - 1]);
      RunRoutes(turn, c, now, hard, ws[..|ws| - 1]);
      RunConcludes(turn, c, now, hard, ws[..|ws| - 1], msg);
      StepConcludes(turn, c.history, c.nextId, st, ws[|ws| - 1], msg);
    }
  }

  /** Routing: the loop completes with `v` exactly when a success response bearing the
      awaited id, and no method, arrived with `v`. A steer response is never it. */
  lemma IdRouting(turn: Turn, c: Client, now: nat, hard: nat, ws: seq<Wake>, v: nat)
    requires turn.expectedId < c.nextId
    ensures var end := Run(turn, Start(c, turn, now, hard), ws);
            && (end.exit == Some(Completed(v)) <==> Answered(turn.expectedId, c.history, end.client.history, v))
            && (end.pending.Some? ==> end.pending.value.id != turn.expectedId)
  {
    var end := Run(turn, Start(c, turn, now, hard), ws);
    RunRoutes(turn, c, now, hard, ws);
    if Answered(turn.expectedId, c.history, end.client.history, v) {
      var msg :| Arrived(c.history, end.client.history, msg) && IsResponseTo(msg, turn.expectedId) && msg.error.None? && msg.value == v;
      RunConcludes(turn, c, now, hard, ws, msg);
    }
  }

  /** A response to anything but the awaited request and the steer in flight changes nothing
      but the idle clock and the trace: a late response to an earlier request, a second
      response to a steer already answered, or one to an id that was never issued. */
  lemma OtherResponsesAreIgnored(turn: Turn, st: Loop, w: Wake, msg: Message)
    requires w.event == Reads(Json(msg)) && msg.verb.NoMethod?
    requires !IsResponseTo(msg, turn.expectedId)
    requires st.pending.Some? ==> !IsResponseTo(msg, st.pending.value.id)
    requires st.exit.None? && st.now < st.NextDeadline()
    ensures var at := WakeTime(st, w);
            Step(turn, st, w) == st.(client := st.client.Log(Received(msg)), now := at + w.handling,
                                     lastActivity := at, idleDeadline := at + turn.idleTimeout)
  {
  }

  /** Id `n` was issued, and it is not that of the steer in flight. */
  predicate Settled(st: Loop, n: nat) {
    n < st.client.nextId && (st.pending.Some? ==> st.pending.value.id != n)
  }

  lemma HandleKeepsSettled(turn: Turn, st: Loop, w: Wake, n: nat)
    requires Settled(st, n)
    ensures Settled(Handle(turn, st, w), n)
  {
    if w.event.Reads? && w.event.line.Json? {
      ReadIssuesNothing(turn, st, w.event.line.msg, w.writeOk);
    }
  }

  lemma {:induction false} RunKeepsSettled(turn: Turn, st: Loop, ws: seq<Wake>, n: nat)
    requires Settled(st, n)
    ensures Settled(Run(turn, st, ws), n)
  {
    if ws != [] {
      RunKeepsSettled(turn, st, ws[..|ws| - 1], n);
      var before, w := Run(turn, st, ws[..|ws| - 1]), ws[|ws| - 1];
      HandleKeepsSettled(turn, before.(now := WakeTime(before, w)), w, n);
    }
  }

  /** From any moment of any loop on, a response to an id already issued, other than the one
      awaited and the one in flight at that moment, changes nothing but the idle clock and
      the trace, however much later it comes: whether to a request of an earlier loop or to
      a steer of this one that was already answered. */
  lemma LateResponsesAreIgnored(turn: Turn, st: Loop, ws: seq<Wake>, w: Wake, msg: Message, n: nat)
    requires Settled(st, n) && n != turn.expectedId
    requires w.event == Reads(Json(msg)) && IsResponseTo(msg, n)
    ensures var later := Run(turn, st, ws);
            var at := WakeTime(later, w);
            later.exit.None? && later.now < later.NextDeadline() ==>
              Step(turn, later, w) == later.(client := later.client.Log(Received(msg)), now := at + w.handling,
                                             lastActivity := at, idleDeadline := at + turn.idleTimeout)
  {
    RunKeepsSettled(turn, st, ws, n);
    var later := Run(turn, st, ws);
    if later.exit.None? && later.now < later.NextDeadline() {
      OtherResponsesAreIgnored(turn, later, w, msg);
    }
  }

  // ----- Routing of the plain loop

  lemma RequestStepFrame(id: nat, c: Client, w: Wake)
    ensures var after := RequestStep(id, c, w).0;
            after.history.received ==
              if w.event.Reads? && w.event.line.Json? then c.history.received + multiset{w.event.line.msg}
              else c.history.received
  {
    if w.event.Reads? && w.event.line.Json? {
      DispatchFrame(c.Log(Received(w.event.line.msg)), w.event.line.msg, w.writeOk);
    }
  }

  /** A response to the awaited request ends the plain loop. Stated of one message. */
  predicate RequestConcluded(id: nat, h: History, end: (Client, Option<Exit>), msg: Message) {
    && h.received[msg] <= end.0.history.received[msg]
    && (IsResponseTo(msg, id) && Arrived(h, end.0.history, msg) ==> end.1 == Some(ResponseExit(msg)))
  }

  lemma {:induction false} RequestRunConcludes(id: nat, c: Client, ws: seq<Wake>, msg: Message)
    ensures RequestConcluded(id, c.history, RequestRun(id, c, ws), msg)
  {
    if ws != [] {
      RequestRunConcludes(id, c, ws[..|ws| - 1], msg);
      RequestStepFrame(id, RequestRun(id, c, ws[..|ws| - 1]).0, ws[|ws| - 1]);
    }
  }

  lemma {:induction false} RequestRunIsAnswered(id: nat, c: Client, ws: seq<Wake>, v: nat)
    requires RequestRun(id, c, ws).1 == Some(Completed(v))
    ensures Answered(id, c.history, RequestRun(id, c, ws).0.history, v)
  {
    var before, w := RequestRun(id, c, ws[..|ws| - 1]), ws[|ws| - 1];
    if before.1.Some? {
      RequestRunIsAnswered(id, c, ws[..|ws| - 1], v);
    } else {
      var msg := w.event.line.msg;
      RequestRunConcludes(id, c, ws[..|ws| - 1], msg);
      RequestStepFrame(id, before.0, w);
      assert Arrived(c.history, RequestRun(id, c, ws).0.history, msg);
    }
  }

  /** Routing of the plain loop: a request completes with `v` exactly when a success
      response bearing its own id, and no method, arrived with `v`. */
  lemma RequestRouting(id: nat, c: Client, ws: seq<Wake>, v: nat)
    ensures RequestRun(id, c, ws).1 == Some(Completed(v)) <==>
              Answered(id, c.history, RequestRun(id, c, ws).0.history, v)
  {
    var end := RequestRun(id, c, ws);
    if end.1 == Some(Completed(v)) {
      RequestRunIsAnswered(id, c, ws, v);
    }
    if Answered(id, c.history, end.0.history, v) {
      var msg :| Arrived(c.history, end.0.history, msg) && IsResponseTo(msg, id) && msg.error.None? && msg.value == v;
      RequestRunConcludes(id, c, ws, msg);
    }
  }

  /** The plain loop ignores a response to any other id, late or invented. */
  lemma RequestIgnoresOtherResponses(id: nat, c: Client, w: Wake, msg: Message)
    requires w.event == Reads(Json(msg)) && msg.verb.NoMethod? && !IsResponseTo(msg, id)
    ensures RequestStep(id, c, w) == (c.Log(Received(msg)), None)
  {
  }

  /** The wake-ups of a script that are not responses to other ids. */
  function WithoutOtherResponses(id: nat, ws: seq<Wake>): seq<Wake> {
    if ws == [] then [] else
    var front, w := WithoutOtherResponses(id, ws[..|ws| - 1]), ws[|ws| - 1];
    if w.event.Reads? && w.event.line.Json? && w.event.line.msg.verb.NoMethod? && !IsResponseTo(w.event.line.msg, id)
    then front else front + [w]
  }

  /** The clients differ at most in what they have received. */
  predicate SameButReceived(a: Client, b: Client) {
    a == b.(history := a.history)
    && a.history == b.history.(trace := a.history.trace, received := a.history.received)
  }

  lemma StepPreservesSameness(id: nat, a: Client, b: Client, w: Wake)
    requires SameButReceived(a, b)
    ensures SameButReceived(RequestStep(id, a, w).0, RequestStep(id, b, w).0)
    ensures RequestStep(id, a, w).1 == RequestStep(id, b, w).1
  {
    if w.event.Reads? && w.event.line.Json? {
      var msg := w.event.line.msg;
      assert SameButReceived(a.Log(Received(msg)), b.Log(Received(msg)));
      DispatchPreservesSameness(a.Log(Received(msg)), b.Log(Received(msg)), msg, w.writeOk);
    }
  }

  lemma LogPreservesSameness(a: Client, b: Client, o: Observation)
    requires SameButReceived(a, b) && !o.Received?
    ensures SameButReceived(a.Log(o), b.Log(o))
  {
  }

  lemma AnsweringPreservesSameness(a: Client, b: Client, msg: Message, writeOk: bool)
    requires SameButReceived(a, b) && msg.verb.RequestPermission?
    ensures SameButReceived(AnswerPermission(a, msg, writeOk).client, AnswerPermission(b, msg, writeOk).client)
    ensures AnswerPermission(a, msg, writeOk).error == AnswerPermission(b, msg, writeOk).error
  {
    if msg.id.Some? {
      var x := msg.id.value;
      LogPreservesSameness(a, b, PermissionAsked(x));
      var reply := if msg.verb.options.Some? then ChooseReply(msg.verb.options.value) else None;
      if reply.Some? {
        LogPreservesSameness(a.Log(PermissionAsked(x)), b.Log(PermissionAsked(x)), PermissionAnswered(x, reply.value));
      }
    }
  }

  lemma DispatchPreservesSameness(a: Client, b: Client, msg: Message, writeOk: bool)
    requires SameButReceived(a, b)
    ensures SameButReceived(Dispatch(a, msg, writeOk).client, Dispatch(b, msg, writeOk).client)
    ensures Dispatch(a, msg, writeOk).error == Dispatch(b, msg, writeOk).error
  {
    if msg.verb.RequestPermission? {
      AnsweringPreservesSameness(a, b, msg, writeOk);
    } else if msg.verb.OtherMethod? && msg.id.Some? {
      LogPreservesSameness(a, b, Refused(msg.id.value));
    }
  }

  /** Over a whole request, dropping every such response changes neither the outcome nor
      anything of the client but what it has received. */
  lemma {:induction false} LateResponsesNeverReachARequest(id: nat, c: Client, ws: seq<Wake>)
    ensures var all, kept := RequestRun(id, c, ws), RequestRun(id, c, WithoutOtherResponses(id, ws));
            all.1 == kept.1 && SameButReceived(all.0, kept.0)
  {
    if ws != [] {
      var front, w := ws[..|ws| - 1], ws[|ws| - 1];
      LateResponsesNeverReachARequest(id, c, front);
      var kept := WithoutOtherResponses(id, front);
      var before, rest := RequestRun(id, c, front), RequestRun(id, c, kept);
      if before.1.None? {
        StepPreservesSameness(id, before.0, rest.0, w);
      }
      assert (kept + [w])[..|kept|] == kept;
    }
  }

  // ----- Permission replies

  /** Permission `x` was answered no more often than it was asked; while it is pending,
      one asking of it is still unanswered. */
  predicate PermissionSound(c: Client, x: RpcId) {
    && c.history.answered[x] + (if c.pendingPermission == Some(x) then 1 else 0) <= c.history.asked[x]
    && (c.pendingPermission.Some? ==> !c.permissionResponded)
  }

  /** A permission request cannot be replied to exactly when its first `allow_once` does not
      name its option, or it offers neither an `allow_once` nor a `reject_once`. */
  lemma UnanswerableExactlyWhen(options: seq<PermissionOption>)
    ensures ChooseReply(options).None? <==>
              (exists i :: 0 <= i < |options| && options[i].kind.AllowOnce? && options[i].optionId.None?
                 && forall j :: 0 <= j < i ==> !options[j].kind.AllowOnce?)
              || forall i :: 0 <= i < |options| ==> options[i].kind.OtherKind?
  {
    FirstOfKindIsFirst(options, AllowOnce);
    FirstOfKindIsFirst(options, RejectOnce);
  }

  /** Option `i` has this id; it allows, or it rejects and no option allows. */
  predicate OfferedBy(options: seq<PermissionOption>, i: nat, id: string)
    requires i < |options|
  {
    && options[i].optionId == Some(id)
    && (options[i].kind.AllowOnce?
        || (options[i].kind.RejectOnce? && forall j :: 0 <= j < |options| ==> !options[j].kind.AllowOnce?))
  }

  /** A permission is never refused while some option allows it, and the option named in
      the reply is one the agent offered. */
  lemma RepliesAreOffered(options: seq<PermissionOption>)
    requires ChooseReply(options).Some?
    ensures var reply := ChooseReply(options).value;
            && !reply.Cancelled?
            && (reply.Selected? ==>
                  exists i :: 0 <= i < |options| && OfferedBy(options, i, reply.optionId))
            && (reply.SelectedReject? ==> forall j :: 0 <= j < |options| ==> !options[j].kind.AllowOnce?)
  {
    FirstOfKindIsFirst(options, AllowOnce);
    FirstOfKindIsFirst(options, RejectOnce);
    var reply := ChooseReply(options).value;
    if reply.Selected? {
      var kind := if FirstOfKind(options, AllowOnce).Some? then AllowOnce else RejectOnce;
      var i :| 0 <= i < |options| && options[i] == FirstOfKind(options, kind).value && options[i].kind == kind;
      assert OfferedBy(options, i, reply.optionId);
    }
  }

  lemma DispatchKeepsPermissions(c: Client, msg: Message, writeOk: bool, x: RpcId)
    requires PermissionSound(c, x)
    ensures PermissionSound(Dispatch(c, msg, writeOk).client, x)
  {
    if msg.verb.RequestPermission? {
      AnsweringKeepsPermissions(c, msg, writeOk, x);
    }
  }

  lemma AnsweringKeepsPermissions(c: Client, msg: Message, writeOk: bool, x: RpcId)
    requires PermissionSound(c, x) && msg.verb.RequestPermission?
    ensures PermissionSound(AnswerPermission(c, msg, writeOk).client, x)
  {
  }

  /** Steers, timeouts and the loop's own response leave permissions alone. */
  predicate SamePermissions(c: Client, d: Client) {
    && d.pendingPermission == c.pendingPermission && d.permissionResponded == c.permissionResponded
    && d.history.asked == c.history.asked && d.history.answered == c.history.answered
  }

  lemma SteeringFrame(turn: Turn, st: Loop, msg: Message, writeOk: bool, exit: Exit)
    ensures SamePermissions(st.client, DequeueSteer(st, writeOk).client)
    ensures SamePermissions(st.client, Return(st, exit).client)
    ensures st.pending.Some? ==> SamePermissions(st.client, AnswerSteer(turn, st, msg).client)
  {
  }

  lemma ReadKeepsPermissions(turn: Turn, st: Loop, msg: Message, writeOk: bool, x: RpcId)
    requires PermissionSound(st.client, x)
    ensures PermissionSound(ReadMessage(turn, st, msg, writeOk).client, x)
  {
    var active := Activate(turn, st, msg);
    assert PermissionSound(active.client, x);
    if active.pending.Some? && IsResponseTo(msg, active.pending.value.id) {
      SteeringFrame(turn, active, msg, writeOk, ResponseExit(msg));
    } else if IsResponseTo(msg, turn.expectedId) {
      SteeringFrame(turn, active, msg, writeOk, ResponseExit(msg));
    } else {
      DispatchKeepsPermissions(active.client, msg, writeOk, x);
    }
  }

  lemma HandleKeepsPermissions(turn: Turn, st: Loop, w: Wake, x: RpcId)
    requires PermissionSound(st.client, x)
    ensures PermissionSound(Handle(turn, st, w).client, x)
  {
    match w.event
    case Reads(Json(msg)) => ReadKeepsPermissions(turn, st, msg, w.writeOk, x);
    case Reads(_) =>
    case _ =>
      var msg := Message(None, NoMethod, None, Absent, 0);
      SteeringFrame(turn, st, msg, w.writeOk, TimeOut(st).exit.value);
  }

  lemma StepKeepsPermissions(turn: Turn, st: Loop, w: Wake, x: RpcId)
    requires PermissionSound(st.client, x)
    ensures PermissionSound(Step(turn, st, w).client, x)
  {
    if st.now >= st.NextDeadline() {
      SteeringFrame(turn, st, Message(None, NoMethod, None, Absent, 0), w.writeOk, TimeOut(st).exit.value);
    } else {
      HandleKeepsPermissions(turn, st.(now := WakeTime(st, w)), w, x);
    }
  }

  // ----- Whole lives of a client

  /** What holds of a client after every sequence of operations. */
  ghost predicate Sound(c: Client) {
    && (forall n :: IdFresh(c, n))
    && AcksSound(c)
    && (forall x :: PermissionSound(c, x))
  }

  lemma {:induction false} RunKeepsIdsAndPermissions(turn: Turn, st: Loop, ws: seq<Wake>, n: nat, x: RpcId)
    requires IdFresh(st.client, n) && PermissionSound(st.client, x)
    ensures IdFresh(Run(turn, st, ws).client, n) && PermissionSound(Run(turn, st, ws).client, x)
  {
    if ws != [] {
      RunKeepsIdsAndPermissions(turn, st, ws[..|ws| - 1], n, x);
      StepKeepsIds(n, turn, Run(turn, st, ws[..|ws| - 1]), ws[|ws| - 1]);
      StepKeepsPermissions(turn, Run(turn, st, ws[..|ws| - 1]), ws[|ws| - 1], x);
    }
  }

  lemma LoopIsSound(turn: Turn, c: Client, now: nat, hard: nat, ws: seq<Wake>)
    requires Sound(c)
    ensures Sound(Run(turn, Start(c, turn, now, hard), ws).client)
  {
    var st := Start(c, turn, now, hard);
    var end := Run(turn, st, ws).client;
    SteerAckDiscipline(turn, c, now, hard, ws);
    forall n ensures IdFresh(end, n) {
      assert IdFresh(c, n) && PermissionSound(c, OtherId);
      RunKeepsIdsAndPermissions(turn, st, ws, n, OtherId);
    }
    forall x ensures PermissionSound(end, x) {
      assert IdFresh(c, 0) && PermissionSound(c, x);
      RunKeepsIdsAndPermissions(turn, st, ws, 0, x);
    }
  }

  lemma ServeIsSound(c: Client, msg: Message, writeOk: bool)
    requires Sound(c)
    ensures Sound(Dispatch(c.Log(Received(msg)), msg, writeOk).client) && Sound(c.Log(Received(msg)))
  {
    var read := c.Log(Received(msg));
    assert forall n :: IdFresh(c, n) ==> IdFresh(read, n);
    assert forall x :: PermissionSound(c, x) ==> PermissionSound(read, x);
    DispatchFrame(read, msg, writeOk);
    var after := Dispatch(read, msg, writeOk).client;
    assert forall n :: IdFresh(read, n) ==> IdFresh(after, n);
    forall x ensures PermissionSound(after, x) {
      DispatchKeepsPermissions(read, msg, writeOk, x);
    }
  }

  lemma {:induction false} RequestIsSound(id: nat, c: Client, ws: seq<Wake>)
    requires Sound(c)
    ensures Sound(RequestRun(id, c, ws).0)
  {
    if ws != [] {
      RequestIsSound(id, c, ws[..|ws| - 1]);
      var before, w := RequestRun(id, c, ws[..|ws| - 1]).0, ws[|ws| - 1];
      if w.event.Reads? && w.event.line.Json? {
        ServeIsSound(before, w.event.line.msg, w.writeOk);
      }
    }
  }

  lemma IssueIsSound(c: Client, purpose: Purpose)
    requires Sound(c)
    ensures Sound(c.Log(Issued(c.nextId, purpose)).(nextId := c.nextId + 1))
  {
    var sent := c.Log(Issued(c.nextId, purpose)).(nextId := c.nextId + 1);
    forall n ensures IdFresh(sent, n) { assert IdFresh(c, n); }
    forall x ensures PermissionSound(sent, x) { assert PermissionSound(c, x); }
  }

  /** The fields that soundness does not read. */
  lemma SoundnessFrame(c: Client, d: Client)
    requires Sound(c)
    requires d == c.(lastPromptId := d.lastPromptId, currentHardDeadline := d.currentHardDeadline, steerInstalled := d.steerInstalled)
    ensures Sound(d)
  {
    assert forall n :: IdFresh(c, n) ==> IdFresh(d, n);
    assert forall x :: PermissionSound(c, x) ==> PermissionSound(d, x);
  }

  lemma CancelPermissionIsSound(c: Client, replyOk: bool)
    requires Sound(c)
    ensures Sound(CancelPermission(c, replyOk).client)
  {
    var after := CancelPermission(c, replyOk).client;
    if c.pendingPermission.Some? {
      assert PermissionSound(c, c.pendingPermission.value);
    }
    forall n ensures IdFresh(after, n) { assert IdFresh(c, n); }
    forall x ensures PermissionSound(after, x) { assert PermissionSound(c, x); }
  }

  lemma WriteCancelIsSound(c: Client, replyOk: bool, cancelOk: bool)
    requires Sound(c)
    ensures Sound(WriteCancel(c, replyOk, cancelOk).client)
  {
    CancelPermissionIsSound(c, replyOk);
    var released := CancelPermission(c, replyOk).client;
    var sent := released.Log(CancelSent);
    assert forall n :: IdFresh(released, n) ==> IdFresh(sent, n);
    assert forall x :: PermissionSound(released, x) ==> PermissionSound(sent, x);
  }

  lemma PromptIsSound(c: Client, op: Operation)
    requires Sound(c) && op.SendPrompt?
    ensures Sound(DoPrompt(c, op).0)
  {
    PromptStartIsSound(c, op);
    var st := PromptStart(c, op);
    assert Start(st.client, PromptTurn(c, op), op.now + op.writeTime, op.now + op.maxDuration) == st;
    LoopIsSound(PromptTurn(c, op), st.client, op.now + op.writeTime, op.now + op.maxDuration, op.ws);
    var from, after := PromptOutcome(c, op);
    SoundnessFrame(from, after);
  }

  lemma PromptStartIsSound(c: Client, op: Operation)
    requires Sound(c) && op.SendPrompt?
    ensures Sound(PromptStart(c, op).client)
  {
    var armed := c.(currentHardDeadline := Some(op.now + op.maxDuration), lastPromptId := Some(c.nextId));
    SoundnessFrame(c, armed);
    IssueIsSound(armed, Prompt);
    SoundnessFrame(armed.Log(Issued(c.nextId, Prompt)).(nextId := c.nextId + 1), PromptStart(c, op).client);
  }

  lemma CancelIsSound(c: Client, op: Operation)
    requires Sound(c) && op.CancelTurn?
    ensures Sound(DoCancel(c, op).0)
  {
    var ready, after := CancelOutcome(c, op);
    SoundnessFrame(c, ready);
    if c.lastPromptId.Some? {
      var written := WriteCancel(ready, op.replyOk, op.cancelOk).client;
      var deadline, now := CleanupDeadline(c.currentHardDeadline, op.now, op.grace), op.now + op.writeTime;
      WriteCancelIsSound(ready, op.replyOk, op.cancelOk);
      LoopIsSound(DrainTurn(c, c.lastPromptId.value, deadline, now), written, now, deadline, op.ws);
    }
  }

  lemma OperationIsSound(c: Client, op: Operation)
    requires Sound(c)
    ensures Sound(Apply(c, op))
  {
    match op
    case SendRequest(write, ws) =>
      IssueIsSound(c, Request);
      RequestIsSound(c.nextId, c.Log(Issued(c.nextId, Request)).(nextId := c.nextId + 1), ws);
    case SendPrompt(_, _, _, _, _, _) => PromptIsSound(c, op);
    case CancelTurn(_, _, _, _, _, _) => CancelIsSound(c, op);
    case _ => SoundnessFrame(c, Apply(c, op));
  }

  /** Over every life of a client (any sequence of requests, prompts, steers and cancels,
      with any agent behaviour and any write failures) all issued ids are distinct, no
      steer is acknowledged twice, and no permission is answered more often than it was
      asked. */
  lemma {:induction false} EveryLifeIsSound(steeringSupported: bool, ops: seq<Operation>)
    ensures Sound(ApplyAll(NewClient(steeringSupported), ops))
  {
    if ops != [] {
      EveryLifeIsSound(steeringSupported, ops[..|ops| - 1]);
      OperationIsSound(ApplyAll(NewClient(steeringSupported), ops[..|ops| - 1]), ops[|ops| - 1]);
    }
  }

  /** A prompt that timed out leaves its final, renewed deadline to the cancel that
      follows, which drains against it or against thirty seconds from then, whichever
      is later. */
  lemma CancelInheritsTheDeadline(c: Client, op: Operation, later: nat)
    requires op.SendPrompt? && op.write.Written?
    requires DoPrompt(c, op).1.Some? && IsTimeout(DoPrompt(c, op).1.value)
    ensures var end := Run(PromptTurn(c, op), PromptStart(c, op), op.ws);
            var after := DoPrompt(c, op).0;
            && after.lastPromptId.Some?
            && CleanupDeadline(after.currentHardDeadline, later, None) ==
                 if end.hardDeadline > later + CLEANUP_GRACE then end.hardDeadline else later + CLEANUP_GRACE
  {
    RunIsOnBudget(PromptTurn(c, op), PromptStart(c, op), op.ws, op.now + op.maxDuration, c.history.renewals);
    RunKeepsPromptId(PromptTurn(c, op), PromptStart(c, op), op.ws);
  }

  lemma {:induction false} RunKeepsPromptId(turn: Turn, st: Loop, ws: seq<Wake>)
    ensures Run(turn, st, ws).client.lastPromptId == st.client.lastPromptId
    ensures Run(turn, st, ws).client.steerInstalled == st.client.steerInstalled
  {
    if ws != [] {
      RunKeepsPromptId(turn, st, ws[..|ws| - 1]);
      StepKeepsPromptId(turn, Run(turn, st, ws[..|ws| - 1]), ws[|ws| - 1]);
    }
  }

  lemma StepKeepsPromptId(turn: Turn, st: Loop, w: Wake)
    ensures Step(turn, st, w).client.lastPromptId == st.client.lastPromptId
    ensures Step(turn, st, w).client.steerInstalled == st.client.steerInstalled
  {
    if w.event.Reads? && w.event.line.Json? {
      ReadIssuesNothing(turn, st.(now := WakeTime(st, w)), w.event.line.msg, w.writeOk);
    }
  }
}
