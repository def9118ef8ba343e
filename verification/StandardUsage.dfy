/** Usage of agents that report per-turn counters with the prompt response and,
    optionally, a cumulative session cost. What is published is stated over the
    history of calls: the cost deltas telescope along the session's cost series
    until the first decrease. */
module StandardUsageHistory {
  import opened Wrappers
  import opened UsageModel
  import opened TurnLog

  const U64_LIMIT := 0x1_0000_0000_0000_0000
  type U64 = n: nat | n < U64_LIMIT

  datatype Adapter = Claude | Codex

  /** A floating-point cost, which the wire may carry as NaN or an infinity. */
  datatype Amount = Finite(value: real) | NonFinite

  datatype PromptUsage = PromptUsage(
    input: U64, output: U64, total: U64, cachedRead: Option<U64>, cachedWrite: Option<U64>)

  /** What a prompt response reports about its turn. */
  datatype Report = Report(usage: PromptUsage, adapter: Adapter)

  /** What the tracker is told: a cumulative cost, or the usage of a prompt. */
  datatype Notice = Cost(amount: Amount) | Prompt(report: Report)

  type Event = TurnLog.Event<Notice>

  type Log = seq<Event>

  predicate Admissible(a: Amount) {
    a.Finite? && a.value >= 0.0
  }

  /** The last admissible cost reported for the turn in flight. */
  function PendingCost(log: Log): Option<real> {
    if log == [] then None else
    var before := log[..|log| - 1];
    match log[|log| - 1]
    case Record(s, Cost(a)) => if Admissible(a) && InFlight(before) == Some(s) then Some(a.value) else PendingCost(before)
    case Record(_, Prompt(_)) => PendingCost(before)
    case Seed(_) => PendingCost(before)
    case _ => None
  }

  /** The last prompt usage reported for the turn in flight. */
  function PendingPrompt(log: Log): Option<Report> {
    if log == [] then None else
    var before := log[..|log| - 1];
    match log[|log| - 1]
    case Record(s, Prompt(r)) => if InFlight(before) == Some(s) then Some(r) else PendingPrompt(before)
    case Record(_, Cost(_)) => PendingPrompt(before)
    case Seed(_) => PendingPrompt(before)
    case _ => None
  }

  /** A `Take` now would settle a turn of `s`. */
  predicate Settles(log: Log, s: string) {
    InFlight(log) == Some(s) && (PendingCost(log).Some? || PendingPrompt(log).Some?)
  }

  predicate Known(log: Log, s: string) {
    log != [] &&
    var before := log[..|log| - 1];
    Known(before, s) || log[|log| - 1] == Seed(s) || (log[|log| - 1].Take? && Settles(before, s))
  }

  /** The cumulative costs settled for `s`, from the zero seed if it came first. */
  function Series(log: Log, s: string): seq<real> {
    if log == [] then [] else
    var before := log[..|log| - 1];
    match log[|log| - 1]
    case Seed(t) => if t == s && !Known(before, s) then [0.0] else Series(before, s)
    case Take =>
      if InFlight(before) == Some(s) && PendingCost(before).Some?
      then Series(before, s) + [PendingCost(before).value] else Series(before, s)
    case _ => Series(before, s)
  }

  predicate Ascending(xs: seq<real>) {
    forall i :: 0 <= i < |xs| - 1 ==> xs[i] <= xs[i + 1]
  }

  /** `input + cache reads + cache writes`, unless it leaves 64 bits. */
  function InclusiveInput(u: PromptUsage): (r: Option<nat>)
    ensures r.Some? <==> u.input + Or0(u.cachedRead) + Or0(u.cachedWrite) < U64_LIMIT
  {
    var sum := u.input + Or0(u.cachedRead) + Or0(u.cachedWrite);
    if sum < U64_LIMIT then Some(sum) else None
  }

  function Or0(v: Option<U64>): nat {
    if v.Some? then v.value else 0
  }

  /** The cost delta that settling `cost` after the series publishes. */
  function TurnCost(series: seq<real>, cost: Option<real>): Option<real> {
    if cost.Some? && series != [] && Ascending(series + [cost.value])
    then Some(cost.value - series[|series| - 1]) else None
  }

  function TurnCounters(report: Option<Report>, cost: Option<real>): Counters {
    if report.None? || InclusiveInput(report.value.usage).None? then UNKNOWN.(cost := cost) else
    var u := report.value.usage;
    Counters(
      InclusiveInput(u), Some(u.output), cost,
      if report.value.adapter.Codex? then Some(u.total) else None, u.cachedRead, u.cachedWrite)
  }

  predicate Publishes(log: Log, s: string) {
    Settles(log, s) && (PendingCost(log).Some? || TurnCounters(PendingPrompt(log), None).input.Some?)
  }

  function PublishedCount(log: Log, s: string): nat {
    if log == [] then 0 else
    var before := log[..|log| - 1];
    PublishedCount(before, s) + if log[|log| - 1].Take? && Publishes(before, s) then 1 else 0
  }

  /** What `Take` returns after the log. No record lacks both its input and its
      cumulative cost, and an overflowing input nulls every prompt counter. */
  function PublishedAt(log: Log): (r: Option<TurnUsage>)
    ensures r.Some? ==> r.value.turn.input.Some? || r.value.cumulative.cost.Some?
    ensures r.Some? && r.value.turn.input.None? ==>
              var t := r.value.turn;
              t.output.None? && t.total.None? && t.cacheRead.None? && t.cacheWrite.None?
    ensures r.Some? ==> InFlight(log) == Some(r.value.sessionId)
  {
    if InFlight(log).None? || !Publishes(log, InFlight(log).value) then None else
    var s := InFlight(log).value;
    var cost := TurnCost(Series(log, s), PendingCost(log));
    var turn := TurnCounters(PendingPrompt(log), cost);
    Some(TurnUsage(s, PublishedCount(log, s) + 1, turn.input.Some? || cost.Some?, turn,
                   UNKNOWN.(cost := PendingCost(log)), None, None))
  }

  function Published(log: Log): seq<TurnUsage> {
    if log == [] then [] else
    var before := log[..|log| - 1];
    if log[|log| - 1].Take? && PublishedAt(before).Some?
    then Published(before) + [PublishedAt(before).value] else Published(before)
  }

  // ----- The record of a turn, in the reported numbers

  predicate IsPrompt(e: Event) {
    e.Record? && e.payload.Prompt?
  }

  predicate IsCost(e: Event) {
    e.Record? && e.payload.Cost? && e.payload.amount.Finite? && e.payload.amount.value >= 0.0
  }

  /** Entry `k` is the last prompt report of the turn in flight. */
  ghost predicate LastPrompt(log: Log, k: int) {
    InTurn(log, k) && IsPrompt(log[k]) && forall j :: k < j && InTurn(log, j) ==> !IsPrompt(log[j])
  }

  /** Entry `k` is the last finite and non-negative cost of the turn in flight. */
  ghost predicate LastCost(log: Log, k: int) {
    InTurn(log, k) && IsCost(log[k]) && forall j :: k < j && InTurn(log, j) ==> !IsCost(log[j])
  }

  lemma {:induction false} PromptIsPendingExactlyWhen(log: Log)
    ensures PendingPrompt(log).Some? <==> exists k :: LastPrompt(log, k)
  {
    if InFlight(log).Some? && !log[|log| - 1].BeginTurn? {
      var n := |log| - 1;
      PromptIsPendingExactlyWhen(log[..n]);
      InTurnStep(log);
      if InTurn(log, n) && IsPrompt(log[n]) {
        assert LastPrompt(log, n);
      } else {
        assert forall k :: LastPrompt(log, k) <==> LastPrompt(log[..n], k);
      }
    } else {
      NothingPending(log);
    }
  }

  lemma {:induction false} LastPromptIsPending(log: Log, k: int)
    requires LastPrompt(log, k)
    ensures PendingPrompt(log) == Some(log[k].payload.report)
  {
    var n := |log| - 1;
    if k < n {
      InTurnStep(log);
      assert InTurn(log, n) ==> !IsPrompt(log[n]);
      LastPromptIsPending(log[..n], k);
    }
  }

  lemma {:induction false} CostIsPendingExactlyWhen(log: Log)
    ensures PendingCost(log).Some? <==> exists k :: LastCost(log, k)
  {
    if InFlight(log).Some? && !log[|log| - 1].BeginTurn? {
      var n := |log| - 1;
      CostIsPendingExactlyWhen(log[..n]);
      InTurnStep(log);
      if InTurn(log, n) && IsCost(log[n]) {
        assert LastCost(log, n);
      } else {
        assert forall k :: LastCost(log, k) <==> LastCost(log[..n], k);
      }
    } else {
      NothingPending(log);
    }
  }

  lemma {:induction false} LastCostIsPending(log: Log, k: int)
    requires LastCost(log, k)
    ensures PendingCost(log) == Some(log[k].payload.amount.value)
  {
    var n := |log| - 1;
    if k < n {
      InTurnStep(log);
      assert InTurn(log, n) ==> !IsCost(log[n]);
      LastCostIsPending(log[..n], k);
    }
  }

  lemma {:induction false} NothingPending(log: Log)
    requires InFlight(log).None? || log[|log| - 1].BeginTurn?
    ensures PendingPrompt(log).None? && PendingCost(log).None?
  {
    if log != [] && (log[|log| - 1].Record? || log[|log| - 1].Seed?) {
      NothingPending(log[..|log| - 1]);
    }
  }

  /** A turn with a prompt report whose input and caches together fit 64 bits publishes the
      numbers of its last report: the inclusive input, the output, the caches as reported,
      and the total of a Codex agent only. */
  lemma PromptRecordIsExact(log: Log, k: int)
    requires LastPrompt(log, k)
    ensures var u, adapter := log[k].payload.report.usage, log[k].payload.report.adapter;
            var read, write := u.cachedRead, u.cachedWrite;
            var sum := u.input + (if read.Some? then read.value else 0) + (if write.Some? then write.value else 0);
            sum < 0x1_0000_0000_0000_0000 ==>
              && PublishedAt(log).Some?
              && var r := PublishedAt(log).value;
                 && r.sessionId == log[k].session && r.deltaReliable
                 && r.turn.input == Some(sum) && r.turn.output == Some(u.output)
                 && r.turn.cacheRead == read && r.turn.cacheWrite == write
                 && r.turn.total == if adapter.Codex? then Some(u.total) else None
  {
    LastPromptIsPending(log, k);
  }

  /** A turn whose input does not fit, or that had no prompt report, publishes a record
      exactly when it had a cost, and then no prompt counter. */
  lemma CostOnlyRecordIsExact(log: Log)
    requires InFlight(log).Some?
    requires forall k :: LastPrompt(log, k) ==>
               var u := log[k].payload.report.usage;
               u.input + (if u.cachedRead.Some? then u.cachedRead.value else 0)
                 + (if u.cachedWrite.Some? then u.cachedWrite.value else 0) >= 0x1_0000_0000_0000_0000
    ensures PublishedAt(log).Some? <==> exists k :: LastCost(log, k)
    ensures PublishedAt(log).Some? ==>
              var r := PublishedAt(log).value;
              && r.turn == Counters(None, None, r.turn.cost, None, None, None)
              && (r.deltaReliable <==> r.turn.cost.Some?)
  {
    PromptIsPendingExactlyWhen(log);
    CostIsPendingExactlyWhen(log);
    if k :| LastPrompt(log, k) {
      LastPromptIsPending(log, k);
    }
  }

  lemma AscendingStep(xs: seq<real>, x: real)
    ensures Ascending(xs + [x]) <==> Ascending(xs) && (xs == [] || LastOf(xs) <= x)
  {
    var now := xs + [x];
    if Ascending(now) {
      forall i | 0 <= i < |xs| - 1 ensures xs[i] <= xs[i + 1] {
        assert now[i] <= now[i + 1];
      }
      if xs != [] {
        assert now[|xs| - 1] <= now[|xs|];
      }
    }
  }

  /** The cost of a record: the cumulative one is the last of the turn; its delta is the
      distance from the last settled cost, exactly when there is one and the session's
      costs, this one included, never fell. */
  lemma CostRecordIsExact(log: Log, k: int)
    requires LastCost(log, k)
    ensures var xs, now := Series(log, log[k].session), log[k].payload.amount.value;
            && PublishedAt(log).Some?
            && var r := PublishedAt(log).value;
               && r.cumulative == Counters(None, None, Some(now), None, None, None)
               && (r.turn.cost.Some? <==>
                     xs != [] && (forall i :: 0 <= i < |xs| - 1 ==> xs[i] <= xs[i + 1]) && xs[|xs| - 1] <= now)
               && (r.turn.cost.Some? ==> r.turn.cost.value == now - xs[|xs| - 1])
  {
    LastCostIsPending(log, k);
    var xs, now := Series(log, log[k].session), log[k].payload.amount.value;
    AscendingStep(xs, now);
  }

  /** The cumulative costs of the records of a session, in order. */
  function PublishedCosts(records: seq<TurnUsage>, s: string): seq<real> {
    if records == [] then [] else
    var before, r := PublishedCosts(records[..|records| - 1], s), records[|records| - 1];
    if r.sessionId == s && r.cumulative.cost.Some? then before + [r.cumulative.cost.value] else before
  }

  /** The series that a delta is measured on is what was published: the zero of the seed,
      if the session began with one, then the cumulative cost of every record that has one. */
  lemma {:induction false} SeriesIsPublished(log: Log, s: string)
    ensures Series(log, s) == (if SeededFirst(log, s) then [0.0] else []) + PublishedCosts(Published(log), s)
  {
    if log != [] {
      var before, e := log[..|log| - 1], log[|log| - 1];
      SeriesIsPublished(before, s);
      if e.Take? && PublishedAt(before).Some? {
        assert Published(log)[..|Published(log)| - 1] == Published(before);
      }
      if e == Seed(s) && !Known(before, s) {
        UnknownIsBlank(before, s);
      }
    }
  }

  // ----- Cost conservation

  function CostSum(records: seq<TurnUsage>, s: string): real {
    if records == [] then 0.0 else
    var r := records[|records| - 1];
    CostSum(records[..|records| - 1], s) + if r.sessionId == s && r.turn.cost.Some? then r.turn.cost.value else 0.0
  }

  /** Length of the longest ascending prefix. */
  function AscentLength(xs: seq<real>): (n: nat)
    ensures n <= |xs| && (xs != [] ==> n > 0)
    ensures Ascending(xs[..n]) && (n < |xs| ==> xs[n] < xs[n - 1])
    ensures n == |xs| <==> Ascending(xs)
  {
    if xs == [] then 0 else
    var n := AscentLength(xs[..|xs| - 1]);
    assert xs[..|xs| - 1][..n] == xs[..n];
    if n == |xs| - 1 && (n == 0 || xs[n - 1] <= xs[n]) then
      assert xs[..|xs|] == xs; |xs|
    else n
  }

  lemma AscentStep(xs: seq<real>, x: real)
    requires xs != []
    ensures AscentLength(xs + [x]) == if Ascending(xs + [x]) then |xs| + 1 else AscentLength(xs)
    ensures Ascending(xs + [x]) ==> Ascending(xs)
  {
    var now := xs + [x];
    assert now[..|xs|] == xs;
    if Ascending(now) {
      forall i | 0 <= i < |xs| - 1 ensures xs[i] <= xs[i + 1] {
        assert now[i] <= now[i + 1];
      }
    }
  }

  lemma {:induction false} UnknownIsBlank(log: Log, s: string)
    requires !Known(log, s)
    ensures Series(log, s) == [] && CostSum(Published(log), s) == 0.0 && PublishedCount(log, s) == 0
  {
    if log != [] {
      UnknownIsBlank(log[..|log| - 1], s);
      CostSumStep(log, s);
    }
  }

  /** What settling the turn in flight adds to the published cost of `s`. */
  function SettledCost(log: Log, s: string): real {
    if InFlight(log) == Some(s) && TurnCost(Series(log, s), PendingCost(log)).Some?
    then TurnCost(Series(log, s), PendingCost(log)).value else 0.0
  }

  lemma CostSumStep(log: Log, s: string)
    requires log != []
    ensures var before := log[..|log| - 1];
            CostSum(Published(log), s) ==
              CostSum(Published(before), s) + if log[|log| - 1].Take? then SettledCost(before, s) else 0.0
  {
    var before := log[..|log| - 1];
    if Published(log) != Published(before) {
      assert Published(log)[..|Published(log)| - 1] == Published(before);
    }
  }

  /** How far the series rose before its first decrease. */
  function Rise(xs: seq<real>): real {
    if xs == [] then 0.0 else xs[AscentLength(xs) - 1] - xs[0]
  }

  lemma RiseStep(xs: seq<real>, c: real)
    ensures Rise(xs + [c]) == Rise(xs) + if TurnCost(xs, Some(c)).Some? then TurnCost(xs, Some(c)).value else 0.0
  {
    var now := xs + [c];
    if xs != [] {
      AscentStep(xs, c);
      assert now[0] == xs[0];
      assert forall i :: 0 <= i < |xs| ==> now[i] == xs[i];
    } else {
      assert now == [c] && Ascending(now);
    }
  }

  lemma RiseOfSeries(log: Log, s: string)
    requires log != []
    ensures var before := log[..|log| - 1];
            Rise(Series(log, s)) == Rise(Series(before, s)) + if log[|log| - 1].Take? then SettledCost(before, s) else 0.0
  {
    var before, e := log[..|log| - 1], log[|log| - 1];
    if e.Take? && InFlight(before) == Some(s) && PendingCost(before).Some? {
      RiseStep(Series(before, s), PendingCost(before).value);
    } else if e == Seed(s) && !Known(before, s) {
      UnknownIsBlank(before, s);
      assert Series(log, s) == [0.0];
    }
  }

  /** Cost conservation: the published cost deltas of a session sum to the rise of
      its series up to the first decrease, and stop there. */
  lemma {:induction false} CostsAreConserved(log: Log, s: string)
    ensures CostSum(Published(log), s) == Rise(Series(log, s))
  {
    if log != [] {
      var before, e := log[..|log| - 1], log[|log| - 1];
      CostsAreConserved(before, s);
      CostSumStep(log, s);
      RiseOfSeries(log, s);
    }
  }

  /** The entry of `s` was created by a seed. */
  predicate SeededFirst(log: Log, s: string) {
    log != [] &&
    var before := log[..|log| - 1];
    SeededFirst(before, s) || (log[|log| - 1] == Seed(s) && !Known(before, s))
  }

  lemma {:induction false} SeededSeriesStartsAtZero(log: Log, s: string)
    requires SeededFirst(log, s)
    ensures Known(log, s) && Series(log, s) != [] && Series(log, s)[0] == 0.0
  {
    if SeededFirst(log[..|log| - 1], s) {
      SeededSeriesStartsAtZero(log[..|log| - 1], s);
    }
  }

  /** For a seeded session whose cost never dropped, the deltas sum to the last
      cumulative cost. */
  lemma SeededCostsSumToLastCumulative(log: Log, s: string)
    requires SeededFirst(log, s) && Ascending(Series(log, s))
    ensures var xs := Series(log, s);
            xs != [] && CostSum(Published(log), s) == xs[|xs| - 1]
  {
    SeededSeriesStartsAtZero(log, s);
    CostsAreConserved(log, s);
  }

  lemma SeriesStep(log: Log, s: string)
    requires log != [] && Known(log[..|log| - 1], s)
    ensures Known(log, s) && Series(log[..|log| - 1], s) <= Series(log, s)
  {
  }

  lemma {:induction false} SeriesGrows(log: Log, later: Log, s: string)
    requires Known(log, s)
    ensures Known(log + later, s) && Series(log, s) <= Series(log + later, s)
  {
    var now := log + later;
    if later == [] {
      assert now == log;
    } else {
      var before := log + later[..|later| - 1];
      SeriesGrows(log, later[..|later| - 1], s);
      assert now[..|now| - 1] == before;
      SeriesStep(now, s);
    }
  }

  /** After the first decrease no record of the session carries a cost delta. */
  lemma NoCostDeltaAfterDecrease(log: Log, later: Log, s: string)
    requires !Ascending(Series(log, s))
    ensures PublishedAt(log + later).Some? && PublishedAt(log + later).value.sessionId == s ==>
              PublishedAt(log + later).value.turn.cost.None?
  {
    if !Known(log, s) { UnknownIsBlank(log, s); }
    SeriesGrows(log, later, s);
    var xs, c := Series(log + later, s), PendingCost(log + later);
    var i :| 0 <= i < |Series(log, s)| - 1 && Series(log, s)[i] > Series(log, s)[i + 1];
    assert xs[i] > xs[i + 1];
    if c.Some? {
      assert (xs + [c.value])[i] == xs[i] && (xs + [c.value])[i + 1] == xs[i + 1];
    }
  }

  /** The records of each session are numbered 1, 2, 3, ... with no gap. */
  lemma {:induction false} SequenceNumbersAreGapless(log: Log, s: string)
    ensures |RecordsOf(Published(log), s)| == PublishedCount(log, s) && Gapless(Published(log), s)
  {
    if log != [] {
      var before := log[..|log| - 1];
      SequenceNumbersAreGapless(before, s);
      if log[|log| - 1].Take? && PublishedAt(before).Some? {
        GaplessStep(Published(before), PublishedAt(before).value, s);
      }
    }
  }
}

/** The tracker that the harness runs for those agents. */
module StandardUsageTracking {
  import opened Wrappers
  import opened UsageModel
  import opened TurnLog
  import opened StandardUsageHistory

  datatype SessionState = SessionState(publishedSeq: nat, lastCost: Option<real>, costPoisoned: bool)

  const BLANK := SessionState(0, None, false)

  datatype CostSlot = CostSlot(session: string, cost: real)
  datatype PromptSlot = PromptSlot(session: string, report: Report)

  /** The tracker's fields at one moment. */
  datatype State = State(
    sessions: map<string, SessionState>, inFlight: Option<string>,
    pendingCost: Option<CostSlot>, pendingPrompt: Option<PromptSlot>)
  {
    function Entry(s: string): SessionState {
      if s in sessions then sessions[s] else BLANK
    }

    function CostNow(): Option<real> {
      if pendingCost.Some? then Some(pendingCost.value.cost) else None
    }

    function CountersNow(): Counters {
      TurnCounters(if pendingPrompt.Some? then Some(pendingPrompt.value.report) else None, None)
    }

    /** Whose turn `Take` settles. */
    function Settled(): Option<string> {
      if pendingPrompt.Some? then Some(pendingPrompt.value.session)
      else if pendingCost.Some? then Some(pendingCost.value.session) else None
    }

    predicate SessionAgrees(log: Log, s: string) {
      var xs := Series(log, s);
      && (s in sessions <==> Known(log, s))
      && Entry(s).publishedSeq == PublishedCount(log, s)
      && Entry(s).lastCost == (if xs != [] && Ascending(xs) then Some(LastOf(xs)) else None)
      && Entry(s).costPoisoned == !Ascending(xs)
    }

    /** Pending cost and prompt always belong to the session in flight. */
    predicate TurnAgrees(log: Log) {
      && inFlight == InFlight(log)
      && pendingCost == (if PendingCost(log).None? then None else
                           if inFlight.None? then None else Some(CostSlot(inFlight.value, PendingCost(log).value)))
      && pendingPrompt == (if PendingPrompt(log).None? then None else
                             if inFlight.None? then None else Some(PromptSlot(inFlight.value, PendingPrompt(log).value)))
      && (inFlight.None? ==> PendingCost(log).None? && PendingPrompt(log).None?)
    }

    ghost predicate Agrees(log: Log) {
      TurnAgrees(log) && forall s :: SessionAgrees(log, s)
    }
  }

  /** Events that leave every session entry alone. */
  lemma QuietAgrees(st: State, now: State, log: Log, e: StandardUsageHistory.Event)
    requires st.Agrees(log) && !e.Take? && !e.Seed?
    requires now == match e
                    case BeginTurn(s) => State(st.sessions, Some(s), None, None)
                    case Record(s, Cost(a)) =>
                      if Admissible(a) && st.inFlight == Some(s) then st.(pendingCost := Some(CostSlot(s, a.value))) else st
                    case Record(s, Prompt(r)) =>
                      if st.inFlight == Some(s) then st.(pendingPrompt := Some(PromptSlot(s, r))) else st
    ensures now.Agrees(log + [e])
    ensures Published(log + [e]) == Published(log)
  {
    assert (log + [e])[..|log|] == log;
    forall s ensures now.SessionAgrees(log + [e], s) {
      assert st.SessionAgrees(log, s);
    }
  }

  lemma SeedAgrees(st: State, now: State, log: Log, s: string)
    requires st.Agrees(log)
    requires now == if s in st.sessions then st else st.(sessions := st.sessions[s := SessionState(0, Some(0.0), false)])
    ensures now.Agrees(log + [Seed(s)]) && Published(log + [Seed(s)]) == Published(log)
  {
    assert (log + [Seed(s)])[..|log|] == log;
    forall t ensures now.SessionAgrees(log + [Seed(s)], t) {
      assert st.SessionAgrees(log, t);
      if t == s && !Known(log, s) { UnknownIsBlank(log, s); }
    }
  }

  /** The entry of a session after a turn with this cost and these prompt counters. */
  function EntryAfter(was: SessionState, counters: Counters, cost: Option<real>): SessionState {
    var drop := cost.Some? && was.lastCost.Some? && cost.value < was.lastCost.value;
    SessionState(
      was.publishedSeq + if counters.input.Some? || cost.Some? then 1 else 0,
      if drop then None else if cost.Some? && !was.costPoisoned then cost else was.lastCost,
      was.costPoisoned || drop)
  }

  /** The record of that turn. */
  function RecordAfter(s: string, was: SessionState, counters: Counters, cost: Option<real>): Option<TurnUsage> {
    var turnCost := if was.costPoisoned then None else CostDelta(cost, was.lastCost);
    if counters.input.None? && cost.None? then None else
    Some(TurnUsage(s, was.publishedSeq + 1, counters.input.Some? || turnCost.Some?,
                   counters.(cost := turnCost), UNKNOWN.(cost := cost), None, None))
  }

  /** The pending slots hold exactly what the turn reported. */
  lemma SlotsAgree(st: State, log: Log, s: string)
    requires st.TurnAgrees(log) && st.Settled() == Some(s)
    ensures InFlight(log) == Some(s) && Settles(log, s)
    ensures PendingCost(log) == st.CostNow() && TurnCounters(PendingPrompt(log), None) == st.CountersNow()
  {
  }

  /** The settled session follows its cost series. */
  lemma SettleAgrees(st: State, log: Log, s: string)
    requires st.Agrees(log) && st.Settled() == Some(s)
    ensures var now := st.(sessions := st.sessions[s := EntryAfter(st.Entry(s), st.CountersNow(), st.CostNow())]);
            now.SessionAgrees(log + [Take], s)
  {
    assert (log + [Take])[..|log|] == log;
    assert st.SessionAgrees(log, s);
    SlotsAgree(st, log, s);
    if PendingCost(log).Some? {
      AscendingStep(Series(log, s), PendingCost(log).value);
    }
  }

  lemma SettledRecord(st: State, log: Log, s: string)
    requires st.Agrees(log) && st.Settled() == Some(s)
    ensures PublishedAt(log) == RecordAfter(s, st.Entry(s), st.CountersNow(), st.CostNow())
  {
    assert st.SessionAgrees(log, s);
    SlotsAgree(st, log, s);
    if PendingCost(log).Some? {
      AscendingStep(Series(log, s), PendingCost(log).value);
    }
  }

  lemma TakeAgrees(st: State, now: State, log: Log)
    requires st.Agrees(log)
    requires now == State(
               if st.Settled().None? then st.sessions else
                 var s := st.Settled().value;
                 st.sessions[s := EntryAfter(st.Entry(s), st.CountersNow(), st.CostNow())],
               None, None, None)
    ensures now.Agrees(log + [Take])
    ensures PublishedAt(log) ==
              if st.Settled().None? then None else
                var s := st.Settled().value;
                RecordAfter(s, st.Entry(s), st.CountersNow(), st.CostNow())
    ensures Published(log + [Take]) == Published(log) + if PublishedAt(log).Some? then [PublishedAt(log).value] else []
  {
    assert (log + [Take])[..|log|] == log;
    if st.Settled().Some? {
      SlotsAgree(st, log, st.Settled().value);
      SettleAgrees(st, log, st.Settled().value);
      SettledRecord(st, log, st.Settled().value);
    }
    forall t ensures now.SessionAgrees(log + [Take], t) {
      assert st.SessionAgrees(log, t);
    }
  }

  class StandardUsageTracker {
    var sessions: map<string, SessionState>
    var inFlight: Option<string>
    var pendingCost: Option<CostSlot>
    var pendingPrompt: Option<PromptSlot>

    /** Every call made so far, and every record returned by `Take`. */
    ghost var log: Log
    ghost var published: seq<TurnUsage>

    function Snapshot(): State
      reads this
    {
      State(sessions, inFlight, pendingCost, pendingPrompt)
    }

    ghost predicate Valid()
      reads this
    {
      Snapshot().Agrees(log) && published == Published(log)
    }

    constructor ()
      ensures Valid() && log == [] && published == []
    {
      sessions, inFlight, pendingCost, pendingPrompt := map[], None, None, None;
      log, published := [], [];
    }

    method SeedZeroBaseline(s: string)
      requires Valid()
      modifies this`sessions, this`log
      ensures Valid() && log == old(log) + [Seed(s)]
    {
      if s !in sessions {
        sessions := sessions[s := SessionState(0, Some(0.0), false)];
      }
      log := log + [Seed(s)];
      SeedAgrees(old(Snapshot()), Snapshot(), old(log), s);
    }

    method BeginTurn(s: string)
      requires Valid()
      modifies this`inFlight, this`pendingCost, this`pendingPrompt, this`log
      ensures Valid() && log == old(log) + [TurnLog.BeginTurn(s)]
    {
      inFlight := Some(s);
      pendingCost := None;
      pendingPrompt := None;
      log := log + [TurnLog.BeginTurn(s)];
      QuietAgrees(old(Snapshot()), Snapshot(), old(log), TurnLog.BeginTurn(s));
    }

    method RecordCost(s: string, amount: Amount)
      requires Valid()
      modifies this`pendingCost, this`log
      ensures Valid() && log == old(log) + [TurnLog.Record(s, Cost(amount))]
    {
      if amount.Finite? && amount.value >= 0.0 && inFlight == Some(s) {
        pendingCost := Some(CostSlot(s, amount.value));
      }
      log := log + [TurnLog.Record(s, Cost(amount))];
      QuietAgrees(old(Snapshot()), Snapshot(), old(log), TurnLog.Record(s, Cost(amount)));
    }

    method RecordPromptUsage(s: string, usage: PromptUsage, adapter: Adapter)
      requires Valid()
      modifies this`pendingPrompt, this`log
      ensures Valid() && log == old(log) + [TurnLog.Record(s, Prompt(Report(usage, adapter)))]
    {
      if inFlight == Some(s) {
        pendingPrompt := Some(PromptSlot(s, Report(usage, adapter)));
      }
      log := log + [TurnLog.Record(s, Prompt(Report(usage, adapter)))];
      QuietAgrees(old(Snapshot()), Snapshot(), old(log), TurnLog.Record(s, Prompt(Report(usage, adapter))));
    }

    /** The prompt counters of a turn: all of them, or none when the sum overflows. */
    static method PromptCounters(prompt: Option<PromptSlot>) returns (c: Counters)
      ensures c == TurnCounters(if prompt.None? then None else Some(prompt.value.report), None)
    {
      c := UNKNOWN;
      if prompt.Some? {
        var usage := prompt.value.report.usage;
        var read := if usage.cachedRead.Some? then usage.cachedRead.value else 0;
        var write := if usage.cachedWrite.Some? then usage.cachedWrite.value else 0;
        if usage.input + read < U64_LIMIT && usage.input + read + write < U64_LIMIT {
          var total: Option<nat> := if prompt.value.report.adapter == Codex then Some(usage.total) else None;
          c := Counters(Some(usage.input + read + write), Some(usage.output), None, total,
                        usage.cachedRead, usage.cachedWrite);
        }
      }
    }

    /** Advance the cost series of one session and number its record. */
    static method Settle(session: string, was: SessionState, counters: Counters, cumulative: Option<real>)
      returns (state: SessionState, r: Option<TurnUsage>)
      requires counters.cost.None?
      ensures state == EntryAfter(was, counters, cumulative)
      ensures r == RecordAfter(session, was, counters, cumulative)
    {
      state, r := was, None;
      var turnCost: Option<real> := None;
      if !state.costPoisoned && state.lastCost.Some? && cumulative.Some? && cumulative.value >= state.lastCost.value {
        turnCost := Some(cumulative.value - state.lastCost.value);
      }
      if cumulative.Some? {
        if state.lastCost.Some? && cumulative.value < state.lastCost.value {
          state := state.(costPoisoned := true, lastCost := None);
        } else if !state.costPoisoned {
          state := state.(lastCost := cumulative);
        }
      }
      if counters.input.Some? || cumulative.Some? {
        state := state.(publishedSeq := state.publishedSeq + 1);
        r := Some(TurnUsage(session, state.publishedSeq, counters.input.Some? || turnCost.Some?,
                            counters.(cost := turnCost), UNKNOWN.(cost := cumulative), None, None));
      }
    }

    method Take() returns (r: Option<TurnUsage>)
      requires Valid()
      modifies this
      ensures Valid() && log == old(log) + [TurnLog.Take]
      ensures r == PublishedAt(old(log))
      ensures published == old(published) + if r.Some? then [r.value] else []
    {
      inFlight := None;
      var prompt, cost := pendingPrompt, pendingCost;
      pendingPrompt, pendingCost := None, None;
      r := None;
      if prompt.Some? || cost.Some? {
        var session := if prompt.Some? then prompt.value.session else cost.value.session;
        var counters := PromptCounters(prompt);
        var state := if session in sessions then sessions[session] else BLANK;
        var cumulative: Option<real> := if cost.Some? then Some(cost.value.cost) else None;
        state, r := Settle(session, state, counters, cumulative);
        sessions := sessions[session := state];
      }
      published := published + if r.Some? then [r.value] else [];
      log := log + [TurnLog.Take];
      TakeAgrees(old(Snapshot()), Snapshot(), old(log));
    }
  }
}
