/** The JSON-RPC 2.0 traffic between the harness and one agent, and what the
    harness observes of it. */
module AcpWire {
  import opened Wrappers

  /** An id as the agent may send it. The harness itself issues only numbers. */
  datatype RpcId = Num(n: int) | Text(s: string) | OtherId

  datatype RunIdField = SetTo(runId: string) | Cleared | Untouched

  /** `allow_once`, `reject_once`, or anything else. */
  datatype OptionKind = AllowOnce | RejectOnce | OtherKind

  datatype PermissionOption = PermissionOption(kind: OptionKind, optionId: Option<string>)

  /** The `method` member of an incoming object. */
  datatype Method =
    | NoMethod
    | NonStringMethod
    | SessionUpdate(toolCall: bool, run: RunIdField)
    | GooseUsageUpdate
    | RequestPermission(options: Option<seq<PermissionOption>>)
    | OtherMethod(name: string)

  /** `result.outcome` of a response: `injected`, `startedNewTurn`, another value, or none. */
  datatype OutcomeField = Injected | StartedNewTurn | OtherOutcome(shown: string) | Absent

  datatype ErrorField = ErrorField(code: Option<int>)

  /** One parsed line. `value` stands for the whole `result` member. */
  datatype Message = Message(
    id: Option<RpcId>, verb: Method, error: Option<ErrorField>, outcome: OutcomeField, value: nat)

  /** A response, in the sense of section 5 of JSON-RPC 2.0: it bears the id of a
      request and no method. */
  predicate IsResponseTo(msg: Message, id: nat) {
    msg.verb.NoMethod? && msg.id == Some(Num(id))
  }

  datatype Line = Blank | Garbage | Json(msg: Message)

  datatype SteerTransport = Goose | AcpExtension

  datatype SteerError =
    | AgentError(code: int)
    | TransportError
    | ExpectedRunIdMissing
    | OutcomeRejected(outcome: OutcomeField)

  datatype SteerAck = SteerSuccess | Err(error: SteerError) | PromptCompletedNeutral

  datatype AcpError =
    | AgentExited
    | ProtocolError
    | IoError
    | WriteFailed
    | IdleTimeout
    | HardTimeout(silence: nat)
    | CancelDrainTimeout
    | RequestTimeout
    | AgentReported(code: int)

  /** How a permission request is answered: with an option, with the fallback name of a
      `reject_once` that has none, or as cancelled. */
  datatype PermissionReply = Selected(optionId: string) | SelectedReject | Cancelled

  datatype Purpose = Request | Prompt | Steer(steer: nat, transport: SteerTransport)

  /** What happens on a client, in order. Steer requests are numbered as dequeued. */
  datatype Observation =
    | Issued(id: nat, purpose: Purpose)
    | Dequeued(steer: nat)
    | Acked(acked: nat, ack: SteerAck)
    | Received(msg: Message)
    | PermissionAsked(asked: RpcId)
    | PermissionAnswered(answered: RpcId, reply: PermissionReply)
    | Refused(refused: RpcId)
    | CancelSent
    | Renewed(deadline: nat)

  type Trace = seq<Observation>

  /** The observations in order, and how often each thing happened among them. */
  datatype History = History(
    trace: Trace, issued: multiset<nat>, acks: multiset<nat>,
    asked: multiset<RpcId>, answered: multiset<RpcId>, received: multiset<Message>, renewals: nat)
  {
    function Add(o: Observation): History {
      var h := this.(trace := trace + [o]);
      match o
      case Issued(id, _) => h.(issued := issued + multiset{id})
      case Acked(steer, _) => h.(acks := acks + multiset{steer})
      case PermissionAsked(id) => h.(asked := asked + multiset{id})
      case PermissionAnswered(id, _) => h.(answered := answered + multiset{id})
      case Received(msg) => h.(received := received + multiset{msg})
      case Renewed(_) => h.(renewals := renewals + 1)
      case _ => h
    }
  }

  const NO_HISTORY := History([], multiset{}, multiset{}, multiset{}, multiset{}, multiset{}, 0)
}
