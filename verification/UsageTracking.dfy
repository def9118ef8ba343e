/** The usage tracker as the harness runs it: a mutable map of session states, a
    pending record, an identity accumulator and two absence accumulators. */
module UsageTracking {
  import opened Wrappers
  import opened UsageModel
  import opened TurnLog
  import opened UsageHistory

  datatype SessionState = SessionState(
    publishedSeq: nat, last: Counters, inputEverPoisoned: bool, outputEverPoisoned: bool)

  const BLANK := SessionState(0, UNKNOWN, false, false)

  /** The tracker's fields at one moment. */
  datatype State = State(
    sessions: map<string, SessionState>, inFlight: Option<string>, pending: Option<TurnUsage>,
    pendingIdentity: Option<Option<PricingIdentity>>, inputAbsence: bool, outputAbsence: bool)
  {
    /** The entry of a session, with the values the code assumes when there is none. */
    function Committed(s: string): SessionState {
      if s in sessions then sessions[s] else BLANK
    }

    /** The committed flag, or-ed with the live accumulator of the turn in flight. */
    predicate Poison(s: string, f: Field)
      requires Sticky(f)
    {
      match f
      case Input => Committed(s).inputEverPoisoned || (inFlight == Some(s) && inputAbsence)
      case Output => Committed(s).outputEverPoisoned || (inFlight == Some(s) && outputAbsence)
    }

    ghost predicate SessionAgrees(log: Log, s: string) {
      && (s in sessions <==> Known(log, s))
      && Committed(s).publishedSeq == PublishedCount(log, s)
      && Committed(s).last == Baseline(log, s)
      && (Poison(s, Input) <==> Lacked(log, s, Input))
      && (Poison(s, Output) <==> Lacked(log, s, Output))
    }

    ghost predicate TurnAgrees(log: Log) {
      var ps := TurnPayloads(log);
      && inFlight == InFlight(log)
      && (inFlight.None? ==> ps == [])
      && inputAbsence == AnyLacks(ps, Input)
      && outputAbsence == AnyLacks(ps, Output)
      && pendingIdentity == (if ps == [] then None else Some(CommonIdentity(ps)))
      && pending == (if PublishedAt(log).None? then None else Some(PublishedAt(log).value.(pricingIdentity := None)))
    }

    /** Every field is the corresponding function of the history. */
    ghost predicate Agrees(log: Log) {
      TurnAgrees(log) && forall s :: SessionAgrees(log, s)
    }

    /** An entry with its flags raised. */
    function Raised(s: string, input: bool, output: bool): SessionState {
      var entry := Committed(s);
      entry.(inputEverPoisoned := entry.inputEverPoisoned || input,
             outputEverPoisoned := entry.outputEverPoisoned || output)
    }

    /** The entries after the absences of the turn in flight are committed. */
    function Flushed(): map<string, SessionState> {
      if (inputAbsence || outputAbsence) && inFlight.Some?
      then sessions[inFlight.value := Raised(inFlight.value, inputAbsence, outputAbsence)] else sessions
    }

    /** The entries after the pending record is published. */
    function Drained(): map<string, SessionState> {
      if pending.None? then sessions else
      var r := pending.value;
      sessions[r.sessionId :=
        Raised(r.sessionId, inputAbsence || r.cumulative.input.None?, outputAbsence || r.cumulative.output.None?)
          .(publishedSeq := r.turnSeq, last := r.cumulative)]
    }

    /** The pending record for a payload, its identity left open. */
    function Measured(s: string, p: Payload): TurnUsage {
      var entry := Committed(s);
      RecordFor(s, entry.publishedSeq + 1, entry.last,
                entry.inputEverPoisoned || entry.outputEverPoisoned || inputAbsence || outputAbsence || LacksEither(p), p, None)
    }

    function FoldedIdentity(p: Payload): Option<PricingIdentity> {
      if pendingIdentity.None? || pendingIdentity.value == p.identity then p.identity else None
    }
  }

  lemma AbsencesStep(log: Log, e: UsageHistory.Event, s: string)
    ensures forall f :: Sticky(f) ==> (Lacked(log + [e], s, f) <==>
              Lacked(log, s, f) || (e.Record? && e.session == s && Get(e.payload.counters, f).None?))
  {
    LackedStep(log, e, s, Input);
    LackedStep(log, e, s, Output);
  }

  lemma BeginAgrees(st: State, now: State, log: Log, s: string)
    requires st.Agrees(log)
    requires now == State(st.Flushed(), Some(s), None, None, false, false)
    ensures now.Agrees(log + [BeginTurn(s)]) && Published(log + [BeginTurn(s)]) == Published(log)
  {
    assert (log + [BeginTurn(s)])[..|log|] == log;
    forall t ensures now.SessionAgrees(log + [BeginTurn(s)], t) {
      assert st.SessionAgrees(log, t);
      AbsencesStep(log, BeginTurn(s), t);
    }
  }

  lemma RebaseAgrees(st: State, now: State, log: Log, s: string, p: Payload)
    requires st.Agrees(log) && st.inFlight == None
    requires now == st.(sessions := st.sessions[s :=
               st.Raised(s, p.counters.input.None?, p.counters.output.None?).(last := p.counters)])
    ensures now.Agrees(log + [Record(s, p)]) && Published(log + [Record(s, p)]) == Published(log)
  {
    assert (log + [Record(s, p)])[..|log|] == log;
    forall t ensures now.SessionAgrees(log + [Record(s, p)], t) {
      assert st.SessionAgrees(log, t);
      AbsencesStep(log, Record(s, p), t);
    }
  }

  lemma LatchAgrees(st: State, now: State, log: Log, s: string, p: Payload)
    requires st.Agrees(log) && st.inFlight.Some? && st.inFlight != Some(s)
    requires now == if LacksEither(p)
                    then st.(sessions := st.sessions[s := st.Raised(s, p.counters.input.None?, p.counters.output.None?)])
                    else st
    ensures now.Agrees(log + [Record(s, p)]) && Published(log + [Record(s, p)]) == Published(log)
  {
    assert (log + [Record(s, p)])[..|log|] == log;
    forall t ensures now.SessionAgrees(log + [Record(s, p)], t) {
      assert st.SessionAgrees(log, t);
      AbsencesStep(log, Record(s, p), t);
    }
    AbsencesStep(log, Record(s, p), st.inFlight.value);
  }

  lemma SeedAgrees(st: State, now: State, log: Log, s: string)
    requires st.Agrees(log)
    requires now == if s in st.sessions then st else st.(sessions := st.sessions[s := SessionState(0, ZERO, false, false)])
    ensures now.Agrees(log + [Seed(s)]) && Published(log + [Seed(s)]) == Published(log)
  {
    assert (log + [Seed(s)])[..|log|] == log;
    forall t ensures now.SessionAgrees(log + [Seed(s)], t) {
      assert st.SessionAgrees(log, t);
      AbsencesStep(log, Seed(s), t);
    }
    if st.inFlight.Some? {
      assert st.SessionAgrees(log, st.inFlight.value);
      AbsencesStep(log, Seed(s), st.inFlight.value);
    }
  }

  lemma FoldSessionsAgree(st: State, now: State, log: Log, s: string, p: Payload)
    requires st.Agrees(log) && st.inFlight == Some(s)
    requires now == st.(inputAbsence := st.inputAbsence || p.counters.input.None?,
                        outputAbsence := st.outputAbsence || p.counters.output.None?,
                        pending := now.pending, pendingIdentity := now.pendingIdentity)
    ensures forall t :: now.SessionAgrees(log + [Record(s, p)], t)
  {
    assert (log + [Record(s, p)])[..|log|] == log;
    forall t ensures now.SessionAgrees(log + [Record(s, p)], t) {
      assert st.SessionAgrees(log, t);
      AbsencesStep(log, Record(s, p), t);
    }
  }

  /** The pending record and the identity state after one more in-flight payload. */
  lemma FoldTurn(st: State, log: Log, s: string, p: Payload)
    requires st.Agrees(log) && st.inFlight == Some(s)
    ensures var now := log + [Record(s, p)];
            && PublishedAt(now).Some?
            && PublishedAt(now).value.(pricingIdentity := None) == st.Measured(s, p)
            && InFlight(now) == Some(s) && TurnPayloads(now) == TurnPayloads(log) + [p]
            && Published(now) == Published(log)
  {
    assert (log + [Record(s, p)])[..|log|] == log;
    assert st.SessionAgrees(log, s);
    AbsencesStep(log, Record(s, p), s);
  }

  lemma FoldAgrees(st: State, now: State, log: Log, s: string, p: Payload)
    requires st.Agrees(log) && st.inFlight == Some(s)
    requires now == st.(
               inputAbsence := st.inputAbsence || p.counters.input.None?,
               outputAbsence := st.outputAbsence || p.counters.output.None?,
               pending := Some(st.Measured(s, p)),
               pendingIdentity := Some(st.FoldedIdentity(p)))
    ensures now.Agrees(log + [Record(s, p)]) && Published(log + [Record(s, p)]) == Published(log)
  {
    FoldSessionsAgree(st, now, log, s, p);
    FoldTurn(st, log, s, p);
    var ps := TurnPayloads(log);
    AnyLacksStep(ps, p, Input);
    AnyLacksStep(ps, p, Output);
    if ps != [] {
      IdentityStep(ps, p);
    }
  }

  lemma TakeAgrees(st: State, now: State, log: Log)
    requires st.Agrees(log)
    requires now == State(st.Drained(), None, None, None, false, false)
    ensures now.Agrees(log + [Take])
    ensures st.pending.None? ==> PublishedAt(log).None?
    ensures st.pending.Some? ==>
              PublishedAt(log) == Some(st.pending.value.(
                pricingIdentity := if st.pendingIdentity.Some? then st.pendingIdentity.value else None))
    ensures Published(log + [Take]) == Published(log) + if PublishedAt(log).Some? then [PublishedAt(log).value] else []
  {
    assert (log + [Take])[..|log|] == log;
    forall t ensures now.SessionAgrees(log + [Take], t) {
      assert st.SessionAgrees(log, t);
      AbsencesStep(log, Take, t);
    }
  }

  /** The token and cost part of a delta: all three, or nothing. */
  datatype TokenDelta = TokenDelta(reliable: bool, input: Option<nat>, output: Option<nat>, cost: Option<real>)

  class UsageTracker {
    var sessions: map<string, SessionState>
    var inFlight: Option<string>
    var pending: Option<TurnUsage>
    /** `None`: no payload yet. `Some(None)`: poisoned. `Some(Some(pi))`: all agree. */
    var pendingIdentity: Option<Option<PricingIdentity>>
    var inputAbsenceObserved: bool
    var outputAbsenceObserved: bool

    /** Every call made so far, and every record returned by `Take`. */
    ghost var log: Log
    ghost var published: seq<TurnUsage>

    function Snapshot(): State
      reads this
    {
      State(sessions, inFlight, pending, pendingIdentity, inputAbsenceObserved, outputAbsenceObserved)
    }

    function Committed(s: string): SessionState
      reads this
    {
      if s in sessions then sessions[s] else BLANK
    }

    /** Every field is the corresponding function of the history, and so is the
        sequence of records handed out. */
    ghost predicate Valid()
      reads this
    {
      Snapshot().Agrees(log) && published == Published(log)
    }

    constructor ()
      ensures Valid() && log == [] && published == []
    {
      sessions, inFlight, pending, pendingIdentity := map[], None, None, None;
      inputAbsenceObserved, outputAbsenceObserved := false, false;
      log, published := [], [];
    }

    /** Commit the absences of the turn in flight before its accumulators are reset. */
    method Flush()
      modifies this`sessions
      ensures sessions == old(Snapshot().Flushed())
    {
      if inputAbsenceObserved || outputAbsenceObserved {
        if inFlight.Some? {
          var key := inFlight.value;
          var entry := Committed(key);
          sessions := sessions[key := entry.(
            inputEverPoisoned := entry.inputEverPoisoned || inputAbsenceObserved,
            outputEverPoisoned := entry.outputEverPoisoned || outputAbsenceObserved)];
        }
      }
    }

    method BeginTurn(s: string)
      requires Valid()
      modifies this
      ensures Valid()
      ensures log == old(log) + [TurnLog.BeginTurn(s)] && published == old(published)
    {
      Flush();
      inFlight := Some(s);
      pending := None;
      pendingIdentity := None;
      inputAbsenceObserved := false;
      outputAbsenceObserved := false;
      log := log + [TurnLog.BeginTurn(s)];
      BeginAgrees(old(Snapshot()), Snapshot(), old(log), s);
    }

    /** The delta of one payload against the committed entry of its session. */
    method MeasureTokens(s: string, current: Counters) returns (d: TokenDelta, seqNo: nat)
      ensures seqNo == Committed(s).publishedSeq + 1
      ensures var base := Committed(s).last;
              var poisoned := Committed(s).inputEverPoisoned || Committed(s).outputEverPoisoned
                              || inputAbsenceObserved || outputAbsenceObserved
                              || current.input.None? || current.output.None?;
              var turn := TurnDeltas(base, current, poisoned);
              d == TokenDelta(Reliable(base, current, poisoned), turn.input, turn.output, turn.cost)
    {
      var unreliable := TokenDelta(false, None, None, None);
      if s !in sessions {
        return unreliable, 1;
      }
      var prev := sessions[s];
      seqNo := prev.publishedSeq + 1;
      var inputPoisoned := prev.inputEverPoisoned || inputAbsenceObserved || current.input.None?;
      var outputPoisoned := prev.outputEverPoisoned || outputAbsenceObserved || current.output.None?;
      if inputPoisoned || outputPoisoned {
        d := unreliable;
      } else {
        match (prev.last.input, prev.last.output) {
          case (Some(pi), Some(po)) =>
            var ci, co := current.input.value, current.output.value;
            if ci < pi || co < po {
              d := unreliable;
            } else {
              match (current.cost, prev.last.cost) {
                case (Some(c), Some(p)) =>
                  d := if c >= p then TokenDelta(true, Some(ci - pi), Some(co - po), Some(c - p)) else unreliable;
                case _ =>
                  d := TokenDelta(true, Some(ci - pi), Some(co - po), None);
              }
            }
          case _ => d := unreliable;
        }
      }
    }

    method Record(s: string, payload: Payload)
      requires Valid()
      modifies this
      ensures Valid()
      ensures log == old(log) + [TurnLog.Record(s, payload)] && published == old(published)
    {
      if inFlight == Some(s) {
        Fold(s, payload);
      } else if inFlight == None {
        Rebase(s, payload);
      } else {
        Latch(s, payload);
      }
    }

    /** The pending record for a payload whose absences are already folded in. */
    method Measure(s: string, payload: Payload) returns (record: TurnUsage)
      ensures record == Snapshot().Measured(s, payload)
    {
      var current, prev := payload.counters, Committed(s).last;
      var d, seqNo := MeasureTokens(s, current);
      record := TurnUsage(
        s, seqNo, d.reliable,
        Counters(d.input, d.output, d.cost,
                 Delta(current.total, prev.total),
                 Delta(current.cacheRead, prev.cacheRead),
                 Delta(current.cacheWrite, prev.cacheWrite)),
        current, payload.model, None);
    }

    /** Fold one identity into the accumulator: adopt the first, keep an exact match,
        poison everything else for good. */
    method FoldIdentity(incoming: Option<PricingIdentity>)
      modifies this`pendingIdentity
      ensures pendingIdentity == Some(
                if old(pendingIdentity).None? || old(pendingIdentity).value == incoming then incoming else None)
    {
      match pendingIdentity {
        case None => pendingIdentity := Some(incoming);
        case Some(None) =>
        case Some(Some(existing)) =>
          pendingIdentity := if Some(existing) == incoming then Some(incoming) else Some(None);
      }
    }

    /** In flight for this session: replace the pending record, keep the baseline. */
    method Fold(s: string, payload: Payload)
      requires Valid() && inFlight == Some(s)
      modifies this`inputAbsenceObserved, this`outputAbsenceObserved, this`pending, this`pendingIdentity, this`log
      ensures Valid()
      ensures log == old(log) + [TurnLog.Record(s, payload)]
    {
      if payload.counters.input.None? { inputAbsenceObserved := true; }
      if payload.counters.output.None? { outputAbsenceObserved := true; }
      var record := Measure(s, payload);
      FoldIdentity(payload.identity);
      pending := Some(record);
      log := log + [TurnLog.Record(s, payload)];
      FoldAgrees(old(Snapshot()), Snapshot(), old(log), s, payload);
    }

    /** Outside any turn: the notification becomes the committed baseline. */
    method Rebase(s: string, payload: Payload)
      requires Valid() && inFlight == None
      modifies this`sessions, this`log
      ensures Valid()
      ensures log == old(log) + [TurnLog.Record(s, payload)]
    {
      var entry := Committed(s);
      sessions := sessions[s := SessionState(
        entry.publishedSeq, payload.counters,
        entry.inputEverPoisoned || payload.counters.input.None?,
        entry.outputEverPoisoned || payload.counters.output.None?)];
      log := log + [TurnLog.Record(s, payload)];

      RebaseAgrees(old(Snapshot()), Snapshot(), old(log), s, payload);
    }

    /** In flight for another session: only an absence is remembered. */
    method Latch(s: string, payload: Payload)
      requires Valid() && inFlight.Some? && inFlight != Some(s)
      modifies this`sessions, this`log
      ensures Valid()
      ensures log == old(log) + [TurnLog.Record(s, payload)]
      ensures forall t :: t != s ==> (t in sessions <==> t in old(sessions)) && Committed(t) == old(Committed(t))
      ensures Committed(s).publishedSeq == old(Committed(s).publishedSeq) && Committed(s).last == old(Committed(s).last)
    {
      if payload.counters.input.None? || payload.counters.output.None? {
        var entry := Committed(s);
        sessions := sessions[s := entry.(
          inputEverPoisoned := entry.inputEverPoisoned || payload.counters.input.None?,
          outputEverPoisoned := entry.outputEverPoisoned || payload.counters.output.None?)];
      }
      log := log + [TurnLog.Record(s, payload)];

      LatchAgrees(old(Snapshot()), Snapshot(), old(log), s, payload);
    }

    method SeedZeroBaseline(s: string)
      requires Valid()
      modifies this`sessions, this`log
      ensures Valid()
      ensures log == old(log) + [Seed(s)]
    {
      if s !in sessions {
        sessions := sessions[s := SessionState(0, ZERO, false, false)];
      }
      log := log + [Seed(s)];

      SeedAgrees(old(Snapshot()), Snapshot(), old(log), s);
    }

    /** Empty the turn's fields; publish its record into the session entries. */
    method Drain() returns (r: Option<TurnUsage>)
      modifies this`sessions, this`inFlight, this`pending, this`pendingIdentity, this`inputAbsenceObserved, this`outputAbsenceObserved
      ensures Snapshot() == State(old(Snapshot().Drained()), None, None, None, false, false)
      ensures r == if old(pending).None? then None else Some(old(pending).value.(
                     pricingIdentity := if old(pendingIdentity).Some? then old(pendingIdentity).value else None))
    {
      inFlight := None;
      var foldedIdentity := if pendingIdentity.Some? then pendingIdentity.value else None;
      pendingIdentity := None;
      var inputAbsence, outputAbsence := inputAbsenceObserved, outputAbsenceObserved;
      inputAbsenceObserved, outputAbsenceObserved := false, false;
      var drained := pending;
      pending := None;
      if drained.None? {
        return None;
      }
      var record := drained.value.(pricingIdentity := foldedIdentity);
      var entry := Committed(record.sessionId);
      sessions := sessions[record.sessionId := SessionState(
        record.turnSeq, record.cumulative,
        entry.inputEverPoisoned || inputAbsence || record.cumulative.input.None?,
        entry.outputEverPoisoned || outputAbsence || record.cumulative.output.None?)];
      r := Some(record);
    }

    /** Publish the record of the turn in flight, if it received any usage. */
    method Take() returns (r: Option<TurnUsage>)
      requires Valid()
      modifies this
      ensures Valid()
      ensures log == old(log) + [TurnLog.Take]
      ensures r == PublishedAt(old(log))
      ensures published == old(published) + if r.Some? then [r.value] else []
    {
      r := Drain();
      published := published + if r.Some? then [r.value] else [];
      log := log + [TurnLog.Take];
      TakeAgrees(old(Snapshot()), Snapshot(), old(log));
    }
  }
}
