/** The calls that a usage tracker receives, in order. Both trackers share their shape
    and differ only in what they are told about a session. */
module TurnLog {
  import opened Wrappers

  datatype Event<+P> =
    | BeginTurn(session: string)
    | Record(session: string, payload: P)
    | Seed(session: string)
    | Take

  /** The session whose prompt is in flight after the log. */
  function InFlight<P>(log: seq<Event<P>>): Option<string> {
    if log == [] then None else
    match log[|log| - 1]
    case BeginTurn(s) => Some(s)
    case Take => None
    case _ => InFlight(log[..|log| - 1])
  }

  /** Index of the `BeginTurn` that opened the turn in flight. */
  function TurnStart<P>(log: seq<Event<P>>): (i: nat)
    requires InFlight(log).Some?
    ensures i < |log|
    ensures log[i] == BeginTurn(InFlight(log).value)
    ensures forall j :: i < j < |log| ==> log[j].Record? || log[j].Seed?
  {
    if log[|log| - 1].BeginTurn? then |log| - 1 else TurnStart(log[..|log| - 1])
  }

  /** Entry `k` of the log is a notification for the turn in flight. */
  predicate InTurn<P>(log: seq<Event<P>>, k: int) {
    && InFlight(log).Some? && TurnStart(log) < k < |log|
    && log[k].Record? && log[k].session == InFlight(log).value
  }

  lemma InTurnStep<P>(log: seq<Event<P>>)
    requires log != [] && InFlight(log).Some? && !log[|log| - 1].BeginTurn?
    ensures var before := log[..|log| - 1];
            && InFlight(before) == InFlight(log) && TurnStart(before) == TurnStart(log)
            && forall k :: k < |log| - 1 ==> (InTurn(log, k) <==> InTurn(before, k))
  {
  }
}
