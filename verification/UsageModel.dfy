/** The values that usage accounting exchanges: cumulative counters, pricing
    identities and the per-turn record published after a turn. */
module UsageModel {
  import opened Wrappers

  datatype PricingIdentity =
    PricingIdentity(authority: string, model: string, cacheClass: Option<string>)

  /** The six cumulative series of a session. `None` means "not reported", which
      is different from a reported zero. */
  datatype Counters = Counters(
    input: Option<nat>, output: Option<nat>, cost: Option<real>,
    total: Option<nat>, cacheRead: Option<nat>, cacheWrite: Option<nat>)

  const UNKNOWN := Counters(None, None, None, None, None, None)
  const ZERO := Counters(Some(0), Some(0), Some(0.0), Some(0), Some(0), Some(0))

  /** The token series. The absence of the first two is sticky. */
  datatype Field = Input | Output | Total | CacheRead | CacheWrite

  predicate Sticky(f: Field) {
    f.Input? || f.Output?
  }

  function Get(c: Counters, f: Field): Option<nat> {
    match f
    case Input => c.input
    case Output => c.output
    case Total => c.total
    case CacheRead => c.cacheRead
    case CacheWrite => c.cacheWrite
  }

  /** One `usage_update` notification. */
  datatype Payload = Payload(
    counters: Counters, model: Option<string>, identity: Option<PricingIdentity>)

  /** The record published for one turn: `turn` holds the per-turn deltas. */
  datatype TurnUsage = TurnUsage(
    sessionId: string, turnSeq: nat, deltaReliable: bool,
    turn: Counters, cumulative: Counters,
    model: Option<string>, pricingIdentity: Option<PricingIdentity>)

  /** `current - previous` of one series, when both are known and it did not drop. */
  function Delta(current: Option<nat>, previous: Option<nat>): (d: Option<nat>)
    ensures d.Some? ==> current.Some? && previous.Some? && previous.value + d.value == current.value
  {
    if current.Some? && previous.Some? && current.value >= previous.value
    then Some(current.value - previous.value) else None
  }

  function CostDelta(current: Option<real>, previous: Option<real>): (d: Option<real>)
    ensures d.Some? ==> current.Some? && previous.Some? && previous.value + d.value == current.value
  {
    if current.Some? && previous.Some? && current.value >= previous.value
    then Some(current.value - previous.value) else None
  }

  function LastOf<T>(xs: seq<T>): T
    requires xs != []
  {
    xs[|xs| - 1]
  }

  /** The records of one session, in order. */
  function RecordsOf(records: seq<TurnUsage>, s: string): seq<TurnUsage> {
    if records == [] then [] else
    var before := RecordsOf(records[..|records| - 1], s);
    if records[|records| - 1].sessionId == s then before + [records[|records| - 1]] else before
  }

  lemma RecordsOfStep(records: seq<TurnUsage>, r: TurnUsage, s: string)
    ensures RecordsOf(records + [r], s) == RecordsOf(records, s) + if r.sessionId == s then [r] else []
  {
    assert (records + [r])[..|records|] == records;
  }

  /** The records of a session are numbered 1, 2, 3, ... with no gap. */
  predicate Gapless(records: seq<TurnUsage>, s: string) {
    forall k :: 0 <= k < |RecordsOf(records, s)| ==> RecordsOf(records, s)[k].turnSeq == k + 1
  }

  lemma GaplessStep(records: seq<TurnUsage>, r: TurnUsage, s: string)
    requires Gapless(records, s) && (r.sessionId == s ==> r.turnSeq == |RecordsOf(records, s)| + 1)
    ensures Gapless(records + [r], s)
    ensures |RecordsOf(records + [r], s)| == |RecordsOf(records, s)| + if r.sessionId == s then 1 else 0
  {
    RecordsOfStep(records, r, s);
  }
}
