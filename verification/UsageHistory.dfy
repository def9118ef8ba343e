/** What the usage tracker publishes, as a function of the whole event history.

    Nothing here mentions the tracker's own bookkeeping (its pending record, fold
    accumulators, sticky flags or identity state): every definition reads the log
    of calls. `UsageTracking.UsageTracker` is proved to compute exactly this. */
module UsageHistory {
  import opened Wrappers
  import opened UsageModel
  import opened TurnLog

  type Event = TurnLog.Event<Payload>

  type Log = seq<Event>

  /** The payloads received for the in-flight session since its turn began. */
  function TurnPayloads(log: Log): seq<Payload> {
    if log == [] then [] else
    var before := log[..|log| - 1];
    match log[|log| - 1]
    case Record(s, p) => if InFlight(before) == Some(s) then TurnPayloads(before) + [p] else TurnPayloads(before)
    case Seed(_) => TurnPayloads(before)
    case _ => []
  }

  /** A `Take` at the end of the log would publish a record for `s`. */
  predicate Publishes(log: Log, s: string) {
    InFlight(log) == Some(s) && TurnPayloads(log) != []
  }

  function PublishedCount(log: Log, s: string): nat {
    if log == [] then 0 else
    var before := log[..|log| - 1];
    PublishedCount(before, s) + if log[|log| - 1].Take? && Publishes(before, s) then 1 else 0
  }

  ghost predicate LackedAt(log: Log, s: string, f: Field, i: nat)
    requires i < |log|
  {
    log[i].Record? && log[i].session == s && Get(log[i].payload.counters, f).None?
  }

  /** Some notification for `s`, at any point of the history, lacked the field. */
  ghost predicate Lacked(log: Log, s: string, f: Field) {
    exists i :: 0 <= i < |log| && LackedAt(log, s, f, i)
  }

  predicate AnyLacks(ps: seq<Payload>, f: Field) {
    exists i :: 0 <= i < |ps| && Get(ps[i].counters, f).None?
  }

  predicate LacksEither(p: Payload) {
    p.counters.input.None? || p.counters.output.None?
  }

  /** The tracker holds an entry for `s`, so that a later `Seed` has no effect. */
  predicate Known(log: Log, s: string) {
    log != [] &&
    var before := log[..|log| - 1];
    Known(before, s) ||
    match log[|log| - 1]
    case BeginTurn(_) =>
      InFlight(before) == Some(s) &&
      (AnyLacks(TurnPayloads(before), Input) || AnyLacks(TurnPayloads(before), Output))
    case Record(t, p) => t == s && InFlight(before) != Some(s) && (InFlight(before) == None || LacksEither(p))
    case Seed(t) => t == s
    case Take => Publishes(before, s)
  }

  /** The counters that the next turn of `s` is measured from: the last published
      cumulative values, the last notification outside any turn, or the zero seed. */
  function Baseline(log: Log, s: string): Counters {
    if log == [] then UNKNOWN else
    var before := log[..|log| - 1];
    match log[|log| - 1]
    case Seed(t) => if t == s && !Known(before, s) then ZERO else Baseline(before, s)
    case Record(t, p) => if t == s && InFlight(before) == None then p.counters else Baseline(before, s)
    case Take => if Publishes(before, s) then LastOf(TurnPayloads(before)).counters else Baseline(before, s)
    case BeginTurn(_) => Baseline(before, s)
  }

  /** The baseline in force when the last in-flight payload arrived. */
  function PendingBase(log: Log): Counters {
    if log == [] then UNKNOWN else
    var before := log[..|log| - 1];
    match log[|log| - 1]
    case Record(s, p) => if InFlight(before) == Some(s) then Baseline(before, s) else PendingBase(before)
    case _ => PendingBase(before)
  }

  /** The one identity that every payload of the turn carried, if there is one. */
  function CommonIdentity(ps: seq<Payload>): Option<PricingIdentity>
    requires ps != []
  {
    if forall i :: 0 <= i < |ps| ==> ps[i].identity == ps[0].identity then ps[0].identity else None
  }

  /** When the deltas of a turn can be trusted. */
  predicate Reliable(base: Counters, current: Counters, poisoned: bool) {
    && !poisoned
    && Delta(current.input, base.input).Some?
    && Delta(current.output, base.output).Some?
    && !(current.cost.Some? && base.cost.Some? && current.cost.value < base.cost.value)
  }

  /** Token and cost deltas stand or fall together; the other three are field-local. */
  function TurnDeltas(base: Counters, current: Counters, poisoned: bool): Counters {
    var ok := Reliable(base, current, poisoned);
    Counters(
      if ok then Delta(current.input, base.input) else None,
      if ok then Delta(current.output, base.output) else None,
      if ok then CostDelta(current.cost, base.cost) else None,
      Delta(current.total, base.total),
      Delta(current.cacheRead, base.cacheRead),
      Delta(current.cacheWrite, base.cacheWrite))
  }

  function RecordFor(
    s: string, seqNo: nat, base: Counters, poisoned: bool, last: Payload, identity: Option<PricingIdentity>
  ): TurnUsage {
    TurnUsage(s, seqNo, Reliable(base, last.counters, poisoned), TurnDeltas(base, last.counters, poisoned),
              last.counters, last.model, identity)
  }

  ghost predicate Poisoned(log: Log, s: string) {
    Lacked(log, s, Input) || Lacked(log, s, Output)
  }

  /** What `Take` returns after the log. */
  ghost function PublishedAt(log: Log): Option<TurnUsage> {
    var ps := TurnPayloads(log);
    if InFlight(log).None? || ps == [] then None else
    var s := InFlight(log).value;
    Some(RecordFor(s, PublishedCount(log, s) + 1, PendingBase(log), Poisoned(log, s), LastOf(ps), CommonIdentity(ps)))
  }

  /** Every record published along the log, in order. */
  ghost function Published(log: Log): seq<TurnUsage> {
    if log == [] then [] else
    var before := log[..|log| - 1];
    if log[|log| - 1].Take? && PublishedAt(before).Some?
    then Published(before) + [PublishedAt(before).value] else Published(before)
  }

  // ----- How one more event changes the history

  lemma LackedStep(log: Log, e: Event, s: string, f: Field)
    ensures Lacked(log + [e], s, f) <==>
            Lacked(log, s, f) || (e.Record? && e.session == s && Get(e.payload.counters, f).None?)
  {
    var now := log + [e];
    if Lacked(log, s, f) {
      var i :| 0 <= i < |log| && LackedAt(log, s, f, i);
      assert LackedAt(now, s, f, i);
    }
    if e.Record? && e.session == s && Get(e.payload.counters, f).None? {
      assert LackedAt(now, s, f, |log|);
    }
    if Lacked(now, s, f) {
      var i :| 0 <= i < |now| && LackedAt(now, s, f, i);
      assert i < |log| ==> LackedAt(log, s, f, i);
    }
  }

  lemma LackedGrows(log: Log, later: Log, s: string, f: Field)
    requires Lacked(log, s, f)
    ensures Lacked(log + later, s, f)
  {
    var i :| 0 <= i < |log| && LackedAt(log, s, f, i);
    assert LackedAt(log + later, s, f, i);
  }

  // ----- Sequence numbers

  /** The records of each session are numbered 1, 2, 3, ... with no gap. */
  lemma {:induction false} SequenceNumbersAreGapless(log: Log, s: string)
    ensures |RecordsOf(Published(log), s)| == PublishedCount(log, s) && Gapless(Published(log), s)
  {
    if log != [] {
      var before := log[..|log| - 1];
      SequenceNumbersAreGapless(before, s);
      if log[|log| - 1].Take? && PublishedAt(before).Some? {
        GaplessStep(Published(before), PublishedAt(before).value, s);
      }
    }
  }

  // ----- Sticky absence

  /** Once any notification of a session lacked its input or output count, no later
      record of that session carries a token or cost delta. */
  lemma AbsenceIsSticky(log: Log, later: Log, s: string, f: Field)
    requires Sticky(f) && Lacked(log, s, f)
    ensures PublishedAt(log + later).Some? && PublishedAt(log + later).value.sessionId == s ==>
              var r := PublishedAt(log + later).value;
              !r.deltaReliable && r.turn.input.None? && r.turn.output.None? && r.turn.cost.None?
  {
    LackedGrows(log, later, s, f);
  }

  // ----- The shape of a turn

  function PayloadsFor(events: Log, s: string): seq<Payload> {
    if events == [] then [] else
    var rest := PayloadsFor(events[..|events| - 1], s);
    var e := events[|events| - 1];
    if e.Record? && e.session == s then rest + [e.payload] else rest
  }

  lemma PayloadsStep(events: Log, e: Event, s: string)
    ensures PayloadsFor(events + [e], s) ==
            PayloadsFor(events, s) + if e.Record? && e.session == s then [e.payload] else []
  {
    assert (events + [e])[..|events|] == events;
  }

  lemma {:induction false} TurnShape(log: Log)
    requires InFlight(log).Some?
    ensures TurnPayloads(log) == PayloadsFor(log[TurnStart(log) + 1..], InFlight(log).value)
  {
    var n, i := |log| - 1, TurnStart(log);
    if i == n {
      assert log[i + 1..] == [];
    } else {
      InTurnStep(log);
      TurnShape(log[..n]);
      PayloadsSnoc(log, i + 1, InFlight(log).value);
    }
  }

  lemma PayloadsSnoc(log: Log, i: nat, s: string)
    requires i < |log|
    ensures var n := |log| - 1;
            PayloadsFor(log[i..], s) ==
            PayloadsFor(log[..n][i..], s) + if log[n].Record? && log[n].session == s then [log[n].payload] else []
  {
    var n := |log| - 1;
    assert log[i..] == log[..n][i..] + [log[n]];
    PayloadsStep(log[..n][i..], log[n], s);
  }

  /** Within a turn only a seed of the session itself can move its baseline. */
  lemma {:induction false} BaselineIsFrozen(log: Log)
    requires InFlight(log).Some?
    requires forall j :: TurnStart(log) < j < |log| ==> log[j] != Seed(InFlight(log).value)
    ensures var s := InFlight(log).value;
            && Baseline(log, s) == Baseline(log[..TurnStart(log)], s)
            && PublishedCount(log, s) == PublishedCount(log[..TurnStart(log)], s)
            && (TurnPayloads(log) != [] ==> PendingBase(log) == Baseline(log[..TurnStart(log)], s))
  {
    var i, before := TurnStart(log), log[..|log| - 1];
    if i < |log| - 1 {
      BaselineIsFrozen(before);
      assert before[..i] == log[..i];
    }
  }

  /** History refinement. Unless the session is seeded in mid-turn, the published
      record depends only on the baseline at `begin_turn`, the last payload of the
      turn, whether the session ever lacked a field, and whether all payloads of
      the turn carried one identity. */
  lemma HistoryRefinement(log: Log, s: string)
    requires InFlight(log) == Some(s)
    requires forall j :: TurnStart(log) < j < |log| ==> log[j] != Seed(s)
    ensures var turn := PayloadsFor(log[TurnStart(log) + 1..], s);
            var start := log[..TurnStart(log)];
            && (PublishedAt(log).None? <==> turn == [])
            && (turn != [] ==>
                  PublishedAt(log).value == RecordFor(
                    s, PublishedCount(start, s) + 1, Baseline(start, s),
                    Poisoned(start, s) || AnyLacks(turn, Input) || AnyLacks(turn, Output),
                    LastOf(turn), CommonIdentity(turn)))
  {
    TurnShape(log);
    BaselineIsFrozen(log);
    PoisonSplits(log, TurnStart(log), s, Input);
    PoisonSplits(log, TurnStart(log), s, Output);
  }

  // ----- The record of a turn, in the counters themselves

  /** Entry `k` is the last notification of the turn in flight. */
  predicate LastInTurn(log: Log, k: int) {
    InTurn(log, k) && forall j :: k < j < |log| ==> !InTurn(log, j)
  }

  /** A record comes out exactly when the turn had a notification. */
  lemma {:induction false} PublishesExactlyWhen(log: Log)
    ensures PublishedAt(log).Some? <==> exists k :: LastInTurn(log, k)
  {
    if InFlight(log).Some? && !log[|log| - 1].BeginTurn? {
      var n := |log| - 1;
      PublishesExactlyWhen(log[..n]);
      InTurnStep(log);
      if InTurn(log, n) {
        assert LastInTurn(log, n);
      } else {
        assert forall k :: LastInTurn(log, k) <==> LastInTurn(log[..n], k);
      }
    }
  }

  /** The last notification is the one that is measured, from the baseline in force when it
      arrived. */
  lemma {:induction false} LastNotificationDecides(log: Log, k: int)
    requires LastInTurn(log, k)
    ensures TurnPayloads(log) != [] && LastOf(TurnPayloads(log)) == log[k].payload
    ensures PendingBase(log) == Baseline(log[..k], log[k].session)
  {
    var n := |log| - 1;
    if k < n {
      InTurnStep(log);
      assert !InTurn(log, n);
      LastNotificationDecides(log[..n], k);
      assert log[..n][..k] == log[..k];
    }
  }

  /** The whole record of a turn in terms of counters. Entry `k` of the log is the last
      notification of the turn, and `base` the baseline when it arrived. The record is
      reliable exactly when no notification of the session ever lacked its input or output
      count, the baseline has both, neither fell, and the cost did not fall where it is
      known on both sides. Its deltas are then the plain differences. The other three
      series stand for themselves. */
  lemma TurnRecordIsExact(log: Log, k: int)
    requires LastInTurn(log, k)
    ensures var s, now, base := log[k].session, log[k].payload.counters, Baseline(log[..k], log[k].session);
            var r := PublishedAt(log);
            && r.Some? && r.value.sessionId == s && r.value.cumulative == now && r.value.model == log[k].payload.model
            && (r.value.deltaReliable <==>
                  && (forall j :: 0 <= j < |log| && log[j].Record? && log[j].session == s ==>
                        log[j].payload.counters.input.Some? && log[j].payload.counters.output.Some?)
                  && base.input.Some? && base.output.Some?
                  && now.input.Some? && now.output.Some?
                  && base.input.value <= now.input.value && base.output.value <= now.output.value
                  && (base.cost.Some? && now.cost.Some? ==> base.cost.value <= now.cost.value))
    ensures var now, base, r := log[k].payload.counters, Baseline(log[..k], log[k].session), PublishedAt(log).value;
            if r.deltaReliable then
              && r.turn.input == Some(now.input.value - base.input.value)
              && r.turn.output == Some(now.output.value - base.output.value)
              && r.turn.cost == (if base.cost.Some? && now.cost.Some? then Some(now.cost.value - base.cost.value) else None)
            else r.turn.input.None? && r.turn.output.None? && r.turn.cost.None?
    ensures var now, base, r := log[k].payload.counters, Baseline(log[..k], log[k].session), PublishedAt(log).value;
            forall f :: !Sticky(f) ==>
              && (Get(r.turn, f).Some? <==>
                    Get(base, f).Some? && Get(now, f).Some? && Get(base, f).value <= Get(now, f).value)
              && (Get(r.turn, f).Some? ==> Get(r.turn, f).value == Get(now, f).value - Get(base, f).value)
  {
    LastNotificationDecides(log, k);
    var s := log[k].session;
    PoisonByEntries(log, s);
  }

  lemma PoisonByEntries(log: Log, s: string)
    ensures !Poisoned(log, s) <==>
              forall j :: 0 <= j < |log| && log[j].Record? && log[j].session == s ==>
                log[j].payload.counters.input.Some? && log[j].payload.counters.output.Some?
  {
    if j :| 0 <= j < |log| && log[j].Record? && log[j].session == s
            && (log[j].payload.counters.input.None? || log[j].payload.counters.output.None?)
    {
      assert LackedAt(log, s, Input, j) || LackedAt(log, s, Output, j);
    }
  }

  /** Without a mid-turn seed that baseline is the one of `begin_turn`. */
  lemma TurnIsMeasuredFromItsStart(log: Log, k: int)
    requires LastInTurn(log, k)
    requires forall j :: TurnStart(log) < j < |log| ==> log[j] != Seed(log[k].session)
    ensures Baseline(log[..k], log[k].session) == Baseline(log[..TurnStart(log)], log[k].session)
  {
    LastNotificationDecides(log, k);
    BaselineIsFrozen(log);
  }

  /** A record names an identity exactly when every notification of its turn carried it. */
  lemma IdentityIsUnanimous(log: Log, id: PricingIdentity)
    requires PublishedAt(log).Some?
    ensures PublishedAt(log).value.pricingIdentity == Some(id) <==>
              forall k :: InTurn(log, k) ==> log[k].payload.identity == Some(id)
  {
    TurnPayloadsByEntry(log);
    var ps := TurnPayloads(log);
    if forall k :: InTurn(log, k) ==> log[k].payload.identity == Some(id) {
      assert forall p :: p in ps ==> p.identity == Some(id);
      assert forall i :: 0 <= i < |ps| ==> ps[i] in ps;
    } else {
      var k :| InTurn(log, k) && log[k].payload.identity != Some(id);
      assert log[k].payload in ps;
    }
  }

  lemma {:induction false} TurnPayloadsByEntry(log: Log)
    ensures forall p :: p in TurnPayloads(log) && InFlight(log).Some? ==> exists k :: InTurn(log, k) && log[k].payload == p
    ensures forall k :: InTurn(log, k) ==> log[k].payload in TurnPayloads(log)
  {
    if InFlight(log).Some? && !log[|log| - 1].BeginTurn? {
      var n := |log| - 1;
      var before := log[..n];
      TurnPayloadsByEntry(before);
      InTurnStep(log);
      forall p | p in TurnPayloads(log) ensures exists k :: InTurn(log, k) && log[k].payload == p {
        if p in TurnPayloads(before) {
          var k :| InTurn(before, k) && before[k].payload == p;
          assert InTurn(log, k);
        } else {
          assert InTurn(log, n);
        }
      }
    }
  }

  /** Entry `i` moves the committed baseline of `s`: a seed of an unknown session, a
      notification outside every turn, or a take that publishes. */
  predicate MovesBaseline(log: Log, s: string, i: int) {
    0 <= i < |log| && match log[i]
                 case Seed(t) => t == s && !Known(log[..i], s)
                 case Record(t, _) => t == s && InFlight(log[..i]).None?
                 case Take => Publishes(log[..i], s)
                 case BeginTurn(_) => false
  }

  lemma MovesBefore(log: Log, s: string, i: int)
    requires log != [] && i < |log| - 1
    ensures MovesBaseline(log, s, i) <==> MovesBaseline(log[..|log| - 1], s, i)
  {
    if 0 <= i {
      assert log[..|log| - 1][..i] == log[..i];
    }
  }

  /** The baseline is what its last move set: zeros, the notification's counters, or the
      counters of the last notification of the published turn. Nothing else touches it. */
  lemma {:induction false} BaselineIsItsLastMove(log: Log, s: string, i: int, k: int)
    requires MovesBaseline(log, s, i) && (forall j :: i < j < |log| ==> !MovesBaseline(log, s, j))
    requires log[i].Take? ==> LastInTurn(log[..i], k)
    ensures match log[i]
            case Seed(_) => Baseline(log, s) == Counters(Some(0), Some(0), Some(0.0), Some(0), Some(0), Some(0))
            case Record(_, p) => Baseline(log, s) == p.counters
            case _ => Baseline(log, s) == log[k].payload.counters
  {
    var n := |log| - 1;
    var before := log[..n];
    if i == n {
      if log[n].Take? {
        LastNotificationDecides(before, k);
      }
    } else {
      MovesBefore(log, s, i);
      forall j | i < j < n ensures !MovesBaseline(before, s, j) {
        MovesBefore(log, s, j);
      }
      assert before[..i] == log[..i] && log[..n] == before;
      BaselineIsItsLastMove(before, s, i, k);
      assert !MovesBaseline(log, s, n);
    }
  }

  lemma {:induction false} UnmovedBaselineIsUnknown(log: Log, s: string)
    requires forall j :: 0 <= j < |log| ==> !MovesBaseline(log, s, j)
    ensures Baseline(log, s) == UNKNOWN
  {
    if log != [] {
      var n := |log| - 1;
      forall j | 0 <= j < n ensures !MovesBaseline(log[..n], s, j) {
        MovesBefore(log, s, j);
      }
      UnmovedBaselineIsUnknown(log[..n], s);
      assert !MovesBaseline(log, s, n);
    }
  }

  /** Entry `i` gives the session an entry in the tracker, unless it has one: a seed, a
      notification outside every turn, a published turn, or a notification that lacked a
      count, at once when another session was in flight and otherwise when the next turn
      begins over it. */
  ghost predicate CreatesEntry(log: Log, s: string, i: int) {
    0 <= i < |log| && match log[i]
                      case Seed(t) => t == s
                      case Record(t, p) => t == s && InFlight(log[..i]) != Some(s) && (InFlight(log[..i]).None? || LacksEither(p))
                      case Take => InFlight(log[..i]) == Some(s) && exists k :: InTurn(log[..i], k)
                      case BeginTurn(_) =>
                        InFlight(log[..i]) == Some(s) && exists k :: InTurn(log[..i], k) && LacksEither(log[..i][k].payload)
  }

  lemma LacksByEntry(log: Log)
    requires InFlight(log).Some?
    ensures AnyLacks(TurnPayloads(log), Input) || AnyLacks(TurnPayloads(log), Output) <==>
              exists k :: InTurn(log, k) && LacksEither(log[k].payload)
    ensures TurnPayloads(log) != [] <==> exists k :: InTurn(log, k)
  {
    var ps := TurnPayloads(log);
    TurnPayloadsByEntry(log);
    if i :| 0 <= i < |ps| && LacksEither(ps[i]) {
      assert ps[i] in ps;
    }
    if k :| InTurn(log, k) && LacksEither(log[k].payload) {
      assert log[k].payload in ps;
      var i :| 0 <= i < |ps| && ps[i] == log[k].payload;
      assert Get(ps[i].counters, Input).None? || Get(ps[i].counters, Output).None?;
    }
    if ps != [] {
      assert ps[0] in ps;
    }
  }

  /** A seed takes effect on exactly the sessions without an entry, which are those that
      nothing of the above has happened to. */
  lemma {:induction false} KnownExactlyWhen(log: Log, s: string)
    ensures Known(log, s) <==> exists i :: CreatesEntry(log, s, i)
  {
    if log != [] {
      var n := |log| - 1;
      var before := log[..n];
      KnownExactlyWhen(before, s);
      assert forall i :: 0 <= i < n ==> before[..i] == log[..i];
      assert forall i :: 0 <= i < n ==> (CreatesEntry(log, s, i) <==> CreatesEntry(before, s, i));
      if InFlight(before).Some? {
        LacksByEntry(before);
      }
      assert Known(log, s) <==> Known(before, s) || CreatesEntry(log, s, n);
    }
  }

  /** What a session lacked before a turn and within it make up its whole history. */
  lemma PoisonSplits(log: Log, i: nat, s: string, f: Field)
    requires i < |log| && !log[i].Record?
    ensures Lacked(log, s, f) <==> Lacked(log[..i], s, f) || AnyLacks(PayloadsFor(log[i + 1..], s), f)
  {
    PayloadsLack(log[i + 1..], s, f);
    var turn := log[i + 1..];
    if Lacked(log, s, f) {
      var k :| 0 <= k < |log| && LackedAt(log, s, f, k);
      assert k < i ==> LackedAt(log[..i], s, f, k);
      assert k > i ==> LackedAt(turn, s, f, k - i - 1);
    }
    if Lacked(log[..i], s, f) {
      LackedGrows(log[..i], log[i..], s, f);
      assert log[..i] + log[i..] == log;
    }
    if Lacked(turn, s, f) {
      var k :| 0 <= k < |turn| && LackedAt(turn, s, f, k);
      assert LackedAt(log, s, f, k + i + 1);
    }
  }

  lemma {:induction false} PayloadsLack(events: Log, s: string, f: Field)
    ensures Lacked(events, s, f) <==> AnyLacks(PayloadsFor(events, s), f)
  {
    if events != [] {
      var before, e := events[..|events| - 1], events[|events| - 1];
      PayloadsLack(before, s, f);
      assert before + [e] == events;
      LackedStep(before, e, s, f);
      var ps := PayloadsFor(before, s);
      if e.Record? && e.session == s {
        AnyLacksStep(ps, e.payload, f);
      }
    }
  }

  lemma AnyLacksStep(ps: seq<Payload>, p: Payload, f: Field)
    ensures AnyLacks(ps + [p], f) <==> AnyLacks(ps, f) || Get(p.counters, f).None?
  {
    var now := ps + [p];
    assert now[|ps|] == p;
    if AnyLacks(ps, f) {
      var i :| 0 <= i < |ps| && Get(ps[i].counters, f).None?;
      assert now[i] == ps[i];
    }
  }

  /** Adding a payload keeps the common identity only when it carries the same one:
      a mismatch or an absence is never healed by a later payload. */
  lemma IdentityStep(ps: seq<Payload>, p: Payload)
    requires ps != []
    ensures CommonIdentity(ps + [p]) ==
            if CommonIdentity(ps) == p.identity then p.identity else None
  {
    var now := ps + [p];
    assert now[0] == ps[0] && now[|ps|] == p;
    if forall i :: 0 <= i < |ps| ==> ps[i].identity == ps[0].identity {
      assert forall i :: 0 <= i < |ps| ==> now[i] == ps[i];
    } else {
      var i :| 0 <= i < |ps| && ps[i].identity != ps[0].identity;
      assert now[i] == ps[i];
    }
  }

  // ----- Token conservation

  /** The entry of `s` was created by a zero seed. */
  predicate SeededFirst(log: Log, s: string) {
    log != [] &&
    var before := log[..|log| - 1];
    SeededFirst(before, s) || (log[|log| - 1] == Seed(s) && !Known(before, s))
  }

  function ValueOr0(v: Option<nat>): nat {
    if v.Some? then v.value else 0
  }

  ghost function DeltaSum(records: seq<TurnUsage>, s: string, f: Field): nat {
    if records == [] then 0 else
    var r := records[|records| - 1];
    DeltaSum(records[..|records| - 1], s, f) + if r.sessionId == s then ValueOr0(Get(r.turn, f)) else 0
  }

  /** How far notifications outside any turn moved the baseline of `s` after its seed. */
  ghost function OutOfTurnMoves(log: Log, s: string, f: Field): int {
    if log == [] then 0 else
    var before, e := log[..|log| - 1], log[|log| - 1];
    OutOfTurnMoves(before, s, f) +
    if e.Record? && e.session == s && InFlight(before).None? && SeededFirst(before, s)
    then ValueOr0(Get(e.payload.counters, f)) - ValueOr0(Get(Baseline(before, s), f)) else 0
  }

  /** Every record of `s` carries a delta of the series. For input and output that is to
      say that every record is reliable. */
  ghost predicate AllPresent(records: seq<TurnUsage>, s: string, f: Field) {
    forall i :: 0 <= i < |records| && records[i].sessionId == s ==> Get(records[i].turn, f).Some?
  }

  lemma {:induction false} ReliableMeansPresent(log: Log, i: nat)
    requires i < |Published(log)|
    ensures var r := Published(log)[i];
            forall f :: Sticky(f) ==> (r.deltaReliable <==> Get(r.turn, f).Some?)
  {
    var before := log[..|log| - 1];
    if i < |Published(before)| {
      ReliableMeansPresent(before, i);
    }
  }

  /** A session without an entry has no baseline and has published nothing. */
  lemma {:induction false} UnknownSessionIsBlank(log: Log, s: string, f: Field)
    requires !Known(log, s)
    ensures Baseline(log, s) == UNKNOWN && !SeededFirst(log, s)
    ensures DeltaSum(Published(log), s, f) == 0 && OutOfTurnMoves(log, s, f) == 0
  {
    if log != [] {
      UnknownSessionIsBlank(log[..|log| - 1], s, f);
      DeltaSumStep(log, s, f);
    }
  }

  lemma DeltaSumStep(log: Log, s: string, f: Field)
    requires log != []
    ensures var before := log[..|log| - 1];
            DeltaSum(Published(log), s, f) == DeltaSum(Published(before), s, f) +
              if log[|log| - 1].Take? && Publishes(before, s)
              then ValueOr0(Get(PublishedAt(before).value.turn, f)) else 0
  {
    var before := log[..|log| - 1];
    if Published(log) != Published(before) {
      assert Published(log)[..|Published(log)| - 1] == Published(before);
    }
  }

  /** A pending record was measured either from the present baseline or, when the
      session was seeded after it, from nothing at all. */
  lemma {:induction false} PendingBaseIsCurrent(log: Log, s: string)
    requires Publishes(log, s)
    ensures PendingBase(log) == Baseline(log, s) || PendingBase(log) == UNKNOWN
  {
    var before, e := log[..|log| - 1], log[|log| - 1];
    if e.Seed? || (e.Record? && e.session != s) {
      PendingBaseIsCurrent(before, s);
      if e == Seed(s) && !Known(before, s) {
        UnknownSessionIsBlank(before, s, Input);
      }
    }
  }

  /** A published delta is the distance from the present baseline to the published count. */
  lemma DeltaFillsTheGap(log: Log, s: string, f: Field)
    requires Publishes(log, s) && Get(PublishedAt(log).value.turn, f).Some?
    ensures var r := PublishedAt(log).value;
            && Get(Baseline(log, s), f).Some? && Get(r.cumulative, f).Some?
            && Get(Baseline(log, s), f).value + Get(r.turn, f).value == Get(r.cumulative, f).value
            && r.cumulative == LastOf(TurnPayloads(log)).counters
  {
    PendingBaseIsCurrent(log, s);
  }

  /** How one event moves the baseline of a session that has an entry. */
  lemma BaselineMoves(log: Log, s: string, f: Field)
    requires log != [] && SeededFirst(log[..|log| - 1], s)
    ensures var before := log[..|log| - 1];
            if log[|log| - 1].Take? && Publishes(before, s) then
              && Baseline(log, s) == LastOf(TurnPayloads(before)).counters
              && OutOfTurnMoves(log, s, f) == OutOfTurnMoves(before, s, f)
            else
              ValueOr0(Get(Baseline(log, s), f)) - OutOfTurnMoves(log, s, f) ==
              ValueOr0(Get(Baseline(before, s), f)) - OutOfTurnMoves(before, s, f)
  {
    SeededIsKnown(log[..|log| - 1], s);
  }

  /** Token conservation, in general and for each of the five token series: for a session
      that started from a zero seed and published a delta of the series with every record,
      the published deltas plus the moves made outside any turn add up to the committed
      baseline, an absent count reading as zero. Notifications that lacked the series are
      allowed wherever they leave a delta to publish. */
  lemma {:induction false} TokensAreConserved(log: Log, s: string, f: Field)
    requires SeededFirst(log, s) && AllPresent(Published(log), s, f)
    ensures DeltaSum(Published(log), s, f) + OutOfTurnMoves(log, s, f) == ValueOr0(Get(Baseline(log, s), f))
  {
    var before, e := log[..|log| - 1], log[|log| - 1];
    DeltaSumStep(log, s, f);
    if !SeededFirst(before, s) {
      UnknownSessionIsBlank(before, s, f);
    } else {
      assert AllPresent(Published(before), s, f) by {
        assert forall i :: 0 <= i < |Published(before)| ==> Published(before)[i] == Published(log)[i];
      }
      TokensAreConserved(before, s, f);
      BaselineMoves(log, s, f);
      if e.Take? && Publishes(before, s) {
        assert PublishedAt(before).value == LastOf(Published(log));
        DeltaFillsTheGap(before, s, f);
      }
    }
  }

  lemma {:induction false} SeededIsKnown(log: Log, s: string)
    requires SeededFirst(log, s)
    ensures Known(log, s)
  {
    if SeededFirst(log[..|log| - 1], s) {
      SeededIsKnown(log[..|log| - 1], s);
    }
  }

  /** No notification of `s` arrived outside every turn. */
  predicate NeverOutOfTurn(log: Log, s: string) {
    log == [] ||
    var before, e := log[..|log| - 1], log[|log| - 1];
    NeverOutOfTurn(before, s) && !(e.Record? && e.session == s && InFlight(before).None?)
  }

  lemma PublishedStep(log: Log, s: string)
    requires log != []
    ensures var before := log[..|log| - 1];
            RecordsOf(Published(log), s) == RecordsOf(Published(before), s) +
              if log[|log| - 1].Take? && Publishes(before, s) then [PublishedAt(before).value] else []
  {
    var before := log[..|log| - 1];
    if log[|log| - 1].Take? && PublishedAt(before).Some? {
      RecordsOfStep(Published(before), PublishedAt(before).value, s);
    }
  }

  lemma {:induction false} BaselineIsLastPublished(log: Log, s: string, f: Field)
    requires NeverOutOfTurn(log, s)
    ensures OutOfTurnMoves(log, s, f) == 0
    ensures RecordsOf(Published(log), s) != [] ==>
              Known(log, s) && Baseline(log, s) == LastOf(RecordsOf(Published(log), s)).cumulative
  {
    if log != [] {
      var before := log[..|log| - 1];
      BaselineIsLastPublished(before, s, f);
      PublishedStep(log, s);
    }
  }

  /** A seeded session that never lacked the series has a baseline in it, so that the zero
      reading of the conservation law is not needed. */
  lemma {:induction false} BaselineIsKnown(log: Log, s: string, f: Field)
    requires SeededFirst(log, s) && !Lacked(log, s, f)
    ensures Get(Baseline(log, s), f).Some?
  {
    var before, e := log[..|log| - 1], log[|log| - 1];
    assert before + [e] == log;
    LackedStep(before, e, s, f);
    if SeededFirst(before, s) {
      BaselineIsKnown(before, s, f);
      SeededIsKnown(before, s);
      if e.Take? && Publishes(before, s) {
        LastPayloadIsOnRecord(before, s, f);
      }
    }
  }

  lemma {:induction false} LastPayloadIsOnRecord(log: Log, s: string, f: Field)
    requires Publishes(log, s) && !Lacked(log, s, f)
    ensures Get(LastOf(TurnPayloads(log)).counters, f).Some?
  {
    var before, e := log[..|log| - 1], log[|log| - 1];
    assert before + [e] == log;
    LackedStep(before, e, s, f);
    if !(e.Record? && e.session == s) {
      LastPayloadIsOnRecord(before, s, f);
    }
  }

  /** A record that carries a delta carries the cumulative count it was measured to. */
  lemma {:induction false} DeltasHaveCounts(log: Log, s: string, f: Field)
    requires AllPresent(Published(log), s, f) && RecordsOf(Published(log), s) != []
    ensures Get(LastOf(RecordsOf(Published(log), s)).cumulative, f).Some?
  {
    var before, e := log[..|log| - 1], log[|log| - 1];
    PublishedStep(log, s);
    assert AllPresent(Published(before), s, f) by {
      assert forall i :: 0 <= i < |Published(before)| ==> Published(before)[i] == Published(log)[i];
    }
    if e.Take? && Publishes(before, s) {
      assert PublishedAt(before).value == LastOf(Published(log));
      DeltaFillsTheGap(before, s, f);
    } else {
      DeltasHaveCounts(before, s, f);
    }
  }

  /** Token conservation for turns alone: however many notifications a turn had,
      whatever other sessions sent, however many turns were begun without being taken and
      whatever notification lacked the count, as long as every record carries a delta,
      the published deltas sum to the last published cumulative count. */
  lemma DeltasSumToLastCumulative(log: Log, s: string, f: Field)
    requires SeededFirst(log, s) && NeverOutOfTurn(log, s)
    requires AllPresent(Published(log), s, f) && RecordsOf(Published(log), s) != []
    ensures Get(LastOf(RecordsOf(Published(log), s)).cumulative, f) == Some(DeltaSum(Published(log), s, f))
  {
    TokensAreConserved(log, s, f);
    BaselineIsLastPublished(log, s, f);
    DeltasHaveCounts(log, s, f);
  }

  // ----- Cross-session notifications

  /** A notification with both counts that arrives while another session is in flight. */
  predicate IsForeign(before: Log, e: Event) {
    e.Record? && !LacksEither(e.payload) && InFlight(before).Some? && InFlight(before) != Some(e.session)
  }

  function WithoutForeign(log: Log): Log {
    if log == [] then [] else
    var before, e := log[..|log| - 1], log[|log| - 1];
    if IsForeign(before, e) then WithoutForeign(before) else WithoutForeign(before) + [e]
  }

  /** The two logs agree on everything that later events can observe. */
  ghost predicate Indistinguishable(a: Log, b: Log) {
    && InFlight(a) == InFlight(b) && TurnPayloads(a) == TurnPayloads(b) && PendingBase(a) == PendingBase(b)
    && forall s :: SameSession(a, b, s)
  }

  ghost predicate SameSession(a: Log, b: Log, s: string) {
    && Known(a, s) == Known(b, s) && Baseline(a, s) == Baseline(b, s)
    && PublishedCount(a, s) == PublishedCount(b, s)
    && (forall f :: Sticky(f) ==> Lacked(a, s, f) == Lacked(b, s, f))
  }

  lemma SameSessionStep(a: Log, b: Log, e: Event, s: string)
    requires Indistinguishable(a, b)
    ensures SameSession(a + [e], b + [e], s)
  {
    assert (a + [e])[..|a|] == a && (b + [e])[..|b|] == b;
    assert SameSession(a, b, s);
    forall f | Sticky(f) ensures Lacked(a + [e], s, f) == Lacked(b + [e], s, f) {
      LackedStep(a, e, s, f);
      LackedStep(b, e, s, f);
    }
  }

  lemma ForeignIsInvisible(a: Log, e: Event)
    requires IsForeign(a, e)
    ensures Indistinguishable(a, a + [e]) && Published(a + [e]) == Published(a)
  {
    assert (a + [e])[..|a|] == a;
    forall s ensures SameSession(a, a + [e], s) {
      forall f | Sticky(f) ensures Lacked(a, s, f) == Lacked(a + [e], s, f) {
        LackedStep(a, e, s, f);
      }
    }
  }

  /** Non-interference: dropping every complete notification that arrived while
      another session was in flight changes no published record of any session. */
  lemma {:induction false} ForeignNotificationsDoNotInterfere(log: Log)
    ensures Published(WithoutForeign(log)) == Published(log)
    ensures Indistinguishable(WithoutForeign(log), log)
  {
    if log != [] {
      var before, e := log[..|log| - 1], log[|log| - 1];
      assert before + [e] == log;
      ForeignNotificationsDoNotInterfere(before);
      var kept := WithoutForeign(before);
      if IsForeign(before, e) {
        ForeignIsInvisible(before, e);
        forall s ensures SameSession(kept, log, s) {
          assert SameSession(kept, before, s) && SameSession(before, log, s);
        }
      } else {
        assert (kept + [e])[..|kept|] == kept;
        forall s ensures SameSession(kept + [e], before + [e], s) {
          SameSessionStep(kept, before, e, s);
        }
        SamePublication(kept, before);
        if e.Record? && InFlight(before) == Some(e.session) {
          assert SameSession(kept, before, e.session);
        }
      }
    }
  }

  lemma SamePublication(a: Log, b: Log)
    requires Indistinguishable(a, b)
    ensures PublishedAt(a) == PublishedAt(b)
  {
    if InFlight(a).Some? {
      assert SameSession(a, b, InFlight(a).value);
    }
  }
}
