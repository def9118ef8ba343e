/** The lazily started agent pool: attempt tokens, stale completions and backoff. */
module PoolLifecycles {
  import opened Wrappers

  const U32_MAX := 0xFFFF_FFFF
  const U64_MAX := 0xFFFF_FFFF_FFFF_FFFF
  const INITIAL_RETRY_DELAY := 5
  const MAX_RETRY_DELAY := 300

  function Min(a: nat, b: nat): nat { if a <= b then a else b }

  function Pow2(n: nat): nat {
    if n == 0 then 1 else 2 * Pow2(n - 1)
  }

  /** Seconds to wait after a failed attempt, in 64-bit arithmetic. */
  function RetryDelay(attempt: nat): nat {
    var exponent := Min(if attempt == 0 then 0 else attempt - 1, 63);
    var multiplier := Pow2(exponent);
    var product := Min(INITIAL_RETRY_DELAY * multiplier, U64_MAX);
    Min(product, MAX_RETRY_DELAY)
  }

  lemma {:induction false} Pow2Monotone(m: nat, n: nat)
    requires m <= n
    ensures 1 <= Pow2(m) <= Pow2(n)
    decreases n
  {
    if m < n {
      Pow2Monotone(m, n - 1);
    } else if n > 0 {
      Pow2Monotone(m - 1, n - 1);
    }
  }

  lemma Pow2Values()
    ensures Pow2(6) == 64 && Pow2(63) == 0x8000_0000_0000_0000
  {
    assert Pow2(7) == 128;
    Pow2Adds(7, 7);
    Pow2Adds(14, 14);
    Pow2Adds(28, 28);
    Pow2Adds(56, 7);
  }

  /** The capped and saturating computation is the ideal backoff for every attempt, its
      shift never leaves 64 bits, and the wait never shrinks. */
  lemma BackoffIsExact(attempt: nat)
    requires attempt >= 1
    ensures RetryDelay(attempt) == Min(5 * Pow2(attempt - 1), 300)
    ensures Pow2(Min(attempt - 1, 63)) <= U64_MAX
    ensures RetryDelay(attempt) <= RetryDelay(attempt + 1) && (attempt >= 7 ==> RetryDelay(attempt) == 300)
  {
    Pow2Values();
    Pow2Monotone(Min(attempt - 1, 63), 63);
    Pow2Monotone(attempt - 1, attempt);
    if attempt >= 7 {
      Pow2Monotone(6, attempt - 1);
      Pow2Monotone(6, Min(attempt - 1, 63));
      Pow2Monotone(6, Min(attempt, 63));
    }
  }

  lemma {:induction false} Pow2Adds(m: nat, n: nat)
    ensures Pow2(m + n) == Pow2(m) * Pow2(n)
  {
    if n > 0 {
      Pow2Adds(m, n - 1);
    }
  }

  datatype Phase<P> =
    | Listening
    | Waking(attempt: nat)
    | Ready(pool: P)
    | Failed(failedAttempt: nat, retryAt: nat, error: string)

  datatype StaleWake = AttemptMismatch | NotWaking

  /** One wake attempt of the present cycle. */
  datatype Attempt = Attempt(token: nat, startedAt: nat, failedAt: Option<nat>)

  /** A cycle of wakes since the lifecycle last listened with no history. Tokens count
      up from one and saturate; each retry waited out the backoff of the failure before. */
  predicate WellPaced(cycle: seq<Attempt>) {
    && (forall i :: 0 <= i < |cycle| ==> cycle[i].token == Min(i + 1, U32_MAX))
    && (forall i :: 0 <= i < |cycle| - 1 ==>
          cycle[i].failedAt.Some? && cycle[i].failedAt.value + RetryDelay(cycle[i].token) <= cycle[i + 1].startedAt)
  }

  lemma WellPacedGrows(cycle: seq<Attempt>, a: Attempt)
    requires WellPaced(cycle) && a.token == Min(|cycle| + 1, U32_MAX)
    requires cycle != [] ==>
               var last := cycle[|cycle| - 1];
               last.failedAt.Some? && last.failedAt.value + RetryDelay(last.token) <= a.startedAt
    ensures WellPaced(cycle + [a])
  {
  }

  class PoolLifecycle<P> {
    var phase: Phase<P>

    ghost var cycle: seq<Attempt>
    /** The cycles that ended with a pool being handed out. */
    ghost var past: seq<seq<Attempt>>
    /** Pools delivered by accepted completions, and pools handed out. */
    ghost var accepted: seq<P>
    ghost var handedOut: seq<P>

    ghost predicate Valid()
      reads this
    {
      && WellPaced(cycle) && (forall i :: 0 <= i < |past| ==> WellPaced(past[i]))
      && accepted == handedOut + (if phase.Ready? then [phase.pool] else [])
      && match phase
         case Listening => cycle == []
         case Waking(attempt) => cycle != [] && Last() == Attempt(attempt, Last().startedAt, None)
         case Ready(_) => cycle != []
         case Failed(attempt, retryAt, _) =>
           cycle != [] && Last().token == attempt && Last().failedAt.Some?
           && retryAt == Last().failedAt.value + RetryDelay(attempt)
    }

    ghost function Last(): Attempt
      requires cycle != []
      reads this
    {
      cycle[|cycle| - 1]
    }

    constructor ()
      ensures Valid() && phase == Listening && cycle == [] && past == [] && accepted == [] && handedOut == []
    {
      phase := Listening;
      cycle, past, accepted, handedOut := [], [], [], [];
    }

    /** Start the first wake, or a retry that is due, when there is work. */
    method StartWakeIfDue(hasPendingWork: bool, now: nat) returns (token: Option<nat>)
      requires Valid()
      modifies this`phase, this`cycle
      ensures Valid()
      ensures token.Some? <==> hasPendingWork && (old(phase).Listening? || (old(phase).Failed? && old(phase).retryAt <= now))
      ensures token.Some? ==> phase == Waking(token.value) && cycle == old(cycle) + [Attempt(token.value, now, None)]
      ensures token.Some? ==> token.value == Min(|old(cycle)| + 1, U32_MAX)
      ensures token.Some? && old(cycle) != [] ==>
                old(Last()).failedAt.Some? && now >= old(Last()).failedAt.value + RetryDelay(old(Last()).token)
      ensures token.None? ==> phase == old(phase) && cycle == old(cycle)
    {
      if !hasPendingWork {
        return None;
      }
      match phase {
        case Listening => token := Some(1);
        case Failed(attempt, retryAt, _) =>
          token := if now >= retryAt then Some(if attempt < U32_MAX then attempt + 1 else U32_MAX) else None;
        case _ => token := None;
      }
      if token.Some? {
        WellPacedGrows(cycle, Attempt(token.value, now, None));
        phase := Waking(token.value);
        cycle := cycle + [Attempt(token.value, now, None)];
      }
    }

    /** Complete the wake in flight; a token that is not current changes nothing. */
    method CompleteWake(completed: nat, result: Result<P, string>, now: nat) returns (r: Option<StaleWake>)
      requires Valid()
      modifies this`phase, this`cycle, this`accepted
      ensures Valid()
      ensures r.None? <==> old(phase) == Waking(completed)
      ensures forall i :: 0 <= i < |old(cycle)| - 1 && i + 1 < U32_MAX && old(cycle)[i].token == completed ==> r.Some?
      ensures r.Some? ==> phase == old(phase) && cycle == old(cycle) && accepted == old(accepted)
      ensures r.Some? ==> r.value == if old(phase).Waking? then AttemptMismatch else NotWaking
      ensures r.None? && result.Success? ==>
                phase == Ready(result.value) && accepted == old(accepted) + [result.value] && cycle == old(cycle)
      ensures r.None? && result.Failure? ==>
                && phase == Failed(completed, now + RetryDelay(completed), result.error) && accepted == old(accepted)
                && cycle == old(cycle)[|old(cycle)| - 1 := old(Last()).(failedAt := Some(now))]
    {
      if !phase.Waking? {
        return Some(NotWaking);
      }
      if phase.attempt != completed {
        return Some(AttemptMismatch);
      }
      match result {
        case Success(pool) =>
          phase := Ready(pool);
          accepted := accepted + [pool];
        case Failure(error) =>
          phase := Failed(completed, now + RetryDelay(completed), error);
          cycle := cycle[|cycle| - 1 := Last().(failedAt := Some(now))];
      }
      return None;
    }

    method CancelWake(attempt: nat, error: string, now: nat) returns (cancelled: bool)
      requires Valid()
      modifies this`phase, this`cycle, this`accepted
      ensures Valid() && accepted == old(accepted)
      ensures cancelled <==> old(phase) == Waking(attempt)
      ensures if cancelled then
                && phase == Failed(attempt, now + RetryDelay(attempt), error)
                && cycle == old(cycle)[|old(cycle)| - 1 := old(Last()).(failedAt := Some(now))]
              else phase == old(phase) && cycle == old(cycle)
    {
      var stale := CompleteWake(attempt, Failure(error), now);
      cancelled := stale.None?;
    }

    /** Hand out the ready pool and begin a new cycle. */
    method TakeReady() returns (pool: Option<P>)
      requires Valid()
      modifies this`phase, this`cycle, this`past, this`handedOut
      ensures Valid()
      ensures pool == if old(phase).Ready? then Some(old(phase).pool) else None
      ensures pool.Some? ==> phase == Listening && cycle == [] && handedOut == old(handedOut) + [pool.value] == accepted
      ensures pool.None? ==> phase == old(phase) && cycle == old(cycle) && handedOut == old(handedOut)
      ensures past == old(past) + if pool.Some? then [old(cycle)] else []
      ensures handedOut <= accepted
    {
      match phase {
        case Ready(p) =>
          phase := Listening;
          past := past + [cycle];
          cycle := [];
          handedOut := handedOut + [p];
          pool := Some(p);
        case _ =>
          pool := None;
      }
    }
  }

  /** How long a cycle of failures must have lasted: attempt `k` of any well-paced cycle
      begins no sooner than the sum of the backoffs before it. */
  function BackoffSum(k: nat): nat {
    if k == 0 then 0 else BackoffSum(k - 1) + Min(INITIAL_RETRY_DELAY * Pow2(k - 1), MAX_RETRY_DELAY)
  }

  lemma {:induction false} RetriesAreSpaced(cycle: seq<Attempt>, k: nat)
    requires WellPaced(cycle) && k < |cycle|
    requires forall i :: 0 <= i < |cycle| && cycle[i].failedAt.Some? ==> cycle[i].startedAt <= cycle[i].failedAt.value
    ensures cycle[k].startedAt >= cycle[0].startedAt + BackoffSum(k)
  {
    if k > 0 {
      RetriesAreSpaced(cycle, k - 1);
      BackoffIsExact(k);
      BackoffIsExact(U32_MAX);
      assert cycle[k - 1].failedAt.value + RetryDelay(cycle[k - 1].token) <= cycle[k - 1 + 1].startedAt;
    }
  }

  /** Which attempt's token passes for that of the attempt in flight: in any cycle, the
      attempt at the same position, or any two that saturated. So within one cycle an older
      attempt is never mistaken for the current one before saturation, while the attempt at
      the same position of an earlier cycle always is. */
  lemma TokenPassesExactlyWhen(current: seq<Attempt>, other: seq<Attempt>, i: nat)
    requires WellPaced(current) && WellPaced(other) && current != [] && i < |other|
    ensures other[i].token == current[|current| - 1].token <==>
              i == |current| - 1 || (i + 1 >= U32_MAX && |current| >= U32_MAX)
  {
    assert other[i].token == Min(i + 1, U32_MAX) && current[|current| - 1].token == Min(|current|, U32_MAX);
  }

  /** A lifecycle after one cycle of two attempts, of which the first was cancelled. */
  method CycleOfTwo<P>(good: P) returns (lifecycle: PoolLifecycle<P>)
    ensures fresh(lifecycle) && lifecycle.Valid() && lifecycle.phase == Listening && lifecycle.cycle == []
    ensures |lifecycle.past| == 1 && |lifecycle.past[0]| == 2 && lifecycle.past[0][0].token == 1
  {
    lifecycle := new PoolLifecycle<P>();
    var first := lifecycle.StartWakeIfDue(true, 0);
    var cancelled := lifecycle.CancelWake(1, "", 0);
    assert cancelled && lifecycle.phase.retryAt == 5 by {
      BackoffIsExact(1);
    }
    var second := lifecycle.StartWakeIfDue(true, 5);
    var done := lifecycle.CompleteWake(2, Success(good), 6);
    var pool := lifecycle.TakeReady();
  }

  /** A completion that an attempt of an earlier cycle brings in late is accepted: its token
      is in use again. */
  method ReusedTokenExample<P>(stale: P, good: P) returns (r: Option<StaleWake>, pool: Option<P>)
    ensures r.None? && pool == Some(stale)
  {
    var lifecycle := CycleOfTwo(good);
    var again := lifecycle.StartWakeIfDue(true, 7);
    r := lifecycle.CompleteWake(1, Success(stale), 8);
    pool := lifecycle.TakeReady();
  }
}
