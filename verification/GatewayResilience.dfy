/** The gateway's Redis-backed circuit breaker, whose keys expire, and its retry loop. */
module GatewayResilience {

  import opened Options

  datatype Circuit = Closed | Open | HalfOpen

  /** The state key with its expiry; the failure counter has none. */
  datatype Mark = Mark(circuit: Circuit, expires: Option<int>)

  datatype Breaker = Breaker(failures: nat, mark: Option<Mark>)

  const MAX_FAILURES := 5
  const COOLDOWN := 30

  const UNTOUCHED := Breaker(0, None)

  /** A missing or expired state key reads as closed. */
  function StateAt(b: Breaker, now: int): Circuit {
    match b.mark
    case None => Closed
    case Some(m) => if m.expires.Some? && m.expires.value <= now then Closed else m.circuit
  }

  /** The half-open claim is a set-if-absent on a key that was just read, so it always loses. */
  function CanExecute(b: Breaker, now: int): bool {
    StateAt(b, now) == Closed
  }

  function RecordFailure(b: Breaker, now: int): Breaker {
    var failures := b.failures + 1;
    if failures >= MAX_FAILURES && StateAt(b, now) != Open
    then Breaker(failures, Some(Mark(Open, Some(now + COOLDOWN))))
    else Breaker(failures, b.mark)
  }

  function RecordSuccess(b: Breaker, now: int): Breaker {
    if StateAt(b, now) == Closed then Breaker(0, b.mark) else Breaker(0, Some(Mark(Closed, None)))
  }

  // ----- the breaker over histories -----

  datatype Event = Success(now: int) | Failure(now: int)

  function After(h: seq<Event>): Breaker
    decreases |h|
  {
    if h == [] then UNTOUCHED
    else
      var b := After(h[..|h| - 1]);
      match h[|h| - 1]
      case Success(now) => RecordSuccess(b, now)
      case Failure(now) => RecordFailure(b, now)
  }

  /** Failures since the last success. */
  function Streak(h: seq<Event>): nat
    decreases |h|
  {
    if h == [] || h[|h| - 1].Success? then 0 else 1 + Streak(h[..|h| - 1])
  }

  /** Step `i` is a failure within the cooldown before `now` that completed or extended a full run
      of failures while the breaker was not open, with no success since. */
  ghost predicate Blocks(h: seq<Event>, i: nat, now: int) {
    && i < |h| && h[i].Failure?
    && now < h[i].now + COOLDOWN
    && Streak(h[..i + 1]) >= MAX_FAILURES
    && CanExecute(After(h[..i]), h[i].now)
    && forall j :: i < j < |h| ==> h[j].Failure?
  }

  /** The counter is the current run of failures, and no state but open and closed is ever stored. */
  lemma {:induction false} CounterIsStreak(h: seq<Event>)
    ensures After(h).failures == Streak(h)
    ensures After(h).mark.Some? ==> After(h).mark.value.circuit != HalfOpen
    decreases |h|
  {
    if h == [] {
    } else {
      CounterIsStreak(h[..|h| - 1]);
    }
  }

  lemma {:induction false} RefusedMeansBlocked(h: seq<Event>, now: int) returns (i: nat)
    requires !CanExecute(After(h), now) && forall j :: 0 <= j < |h| ==> h[j].now <= now
    ensures Blocks(h, i, now)
    decreases |h|
  {
    CounterIsStreak(h);
    var g := h[..|h| - 1];
    var e := h[|h| - 1];
    CounterIsStreak(g);
    if e.Failure? && After(h).mark != After(g).mark {
      i := |g|;
      assert h[..i + 1] == h;
    } else {
      i := RefusedMeansBlocked(g, now);
      assert h[..i + 1] == g[..i + 1] && h[..i] == g[..i];
    }
  }

  /** A blocking failure's expiry stands: failures while the breaker is open do not renew it. */
  lemma {:induction false} BlockedStays(h: seq<Event>, i: nat, now: int)
    requires Blocks(h, i, now) && forall j :: 0 <= j < |h| ==> h[j].now <= now
    ensures After(h).mark == Some(Mark(Open, Some(h[i].now + COOLDOWN)))
    decreases |h|
  {
    var g := h[..|h| - 1];
    CounterIsStreak(g);
    CounterIsStreak(h);
    if i < |g| {
      assert h[..i + 1] == g[..i + 1] && h[..i] == g[..i];
      BlockedStays(g, i, now);
    } else {
      assert h[..i + 1] == h && h[..i] == g;
    }
  }

  /** A call is turned away exactly while some failure that completed or extended a full run of
      failures, on a breaker not open then, is less than the cooldown old and unanswered by a
      success. */
  lemma RefusedIff(h: seq<Event>, now: int)
    requires forall j :: 0 <= j < |h| ==> h[j].now <= now
    ensures !CanExecute(After(h), now) <==> exists i :: Blocks(h, i, now)
  {
    if !CanExecute(After(h), now) {
      var i := RefusedMeansBlocked(h, now);
    }
    if i :| Blocks(h, i, now) {
      BlockedStays(h, i, now);
    }
  }

  /** Each failure in a run of at least the maximum leaves the breaker open. After a cooldown has
      run out a single further failure is enough: nothing was reset. */
  lemma FullRunOpens(h: seq<Event>)
    requires h != [] && h[|h| - 1].Failure? && Streak(h) >= MAX_FAILURES
    ensures !CanExecute(After(h), h[|h| - 1].now)
  {
    CounterIsStreak(h[..|h| - 1]);
    CounterIsStreak(h);
  }

  /** Among failures that follow a success, or the start, only the fifth can block. */
  lemma BlockerIsFifth(g: seq<Event>, f: seq<Event>, i: nat, now: int)
    requires (g == [] || g[|g| - 1].Success?) && |f| <= 5 && forall j :: 0 <= j < |f| ==> f[j].Failure?
    requires Blocks(g + f, i, now)
    ensures |f| == 5 && i == |g| + 4
  {
    var h := g + f;
    if g != [] {
      assert h[|g| - 1] == g[|g| - 1];
    }
    assert i >= |g|;
    assert h[..i + 1] == g + f[..i + 1 - |g|];
    StreakOfFailures(g, f[..i + 1 - |g|]);
  }

  /** Five failures in a row from a success, or from the start, turn calls away for thirty seconds
      after the fifth; fewer never do. */
  lemma {:induction false} FifthFailureRefuses(g: seq<Event>, f: seq<Event>, now: int)
    requires (g == [] || g[|g| - 1].Success?) && |f| <= 5 && forall j :: 0 <= j < |f| ==> f[j].Failure?
    requires forall i, j :: 0 <= i <= j < |g + f| ==> (g + f)[i].now <= (g + f)[j].now <= now
    ensures CanExecute(After(g + f), now) <==> |f| < 5 || now >= f[4].now + 30
  {
    var h := g + f;
    assert forall j :: 0 <= j < |h| ==> h[j].now <= now;
    hide After;
    hide CanExecute;
    RefusedIff(h, now);
    if i: nat :| Blocks(h, i, now) {
      BlockerIsFifth(g, f, i, now);
    } else if |f| == 5 {
      FifthBlocks(g, f, now);
    }
  }

  lemma FifthBlocks(g: seq<Event>, f: seq<Event>, now: int)
    requires (g == [] || g[|g| - 1].Success?) && |f| == 5 && forall j :: 0 <= j < |f| ==> f[j].Failure?
    requires forall i, j :: 0 <= i <= j < |g + f| ==> (g + f)[i].now <= (g + f)[j].now <= now
    ensures now < f[4].now + 30 ==> Blocks(g + f, |g| + 4, now)
  {
    hide After;
    hide CanExecute;
    var h, four := g + f, g + f[..4];
    assert h[..|g| + 4] == four && h[..|g| + 5] == h && h[|g| + 4] == f[4];
    assert forall j :: 0 <= j < |four| ==> four[j] == h[j] && h[j].now <= f[4].now;
    RefusedIff(four, f[4].now);
    if i: nat :| Blocks(four, i, f[4].now) {
      BlockerIsFifth(g, f[..4], i, f[4].now);
    }
    StreakOfFailures(g, f);
  }

  lemma {:induction false} StreakOfFailures(g: seq<Event>, f: seq<Event>)
    requires (g == [] || g[|g| - 1].Success?) && forall j :: 0 <= j < |f| ==> f[j].Failure?
    ensures Streak(g + f) == |f|
    decreases |f|
  {
    if f == [] {
      assert g + f == g;
    } else {
      assert (g + f)[..|g + f| - 1] == g + f[..|f| - 1];
      StreakOfFailures(g, f[..|f| - 1]);
    }
  }

  // ----- the retry loop -----

  datatype Kind = Auth | RateLimit | Timeout | Server | Unknown

  datatype Outcome<V> = Ok(value: V) | Fails(kind: Kind) | CancelledInCall

  /** One provider's behaviour during a retry loop, by attempt: what the call does, whether the
      token is found cancelled before it or during the wait after it, the jitter drawn for that
      wait, and the clock when the call ends. */
  datatype Script<V> = Script(
    outcome: nat -> Outcome<V>,
    cancelledBefore: nat -> bool,
    cancelledInWait: nat -> bool,
    jitter: nat -> nat,
    clock: nat -> int)

  datatype Result<V> = Returned(value: V) | Exhausted(kind: Option<Kind>) | Cancelled

  predicate Retryable<V>(o: Outcome<V>) {
    o.Fails? && (o.kind == RateLimit || o.kind == Timeout || o.kind == Server)
  }

  /** Attempt `a` is retryable and the wait after it is not cancelled, so another one follows. */
  predicate GoesOn<V>(s: Script<V>, maxRetries: nat, a: nat) {
    !s.cancelledBefore(a) && Retryable(s.outcome(a)) && a < maxRetries && !s.cancelledInWait(a)
  }

  /** The attempt at which the loop ends: the first one after which it does not go on. */
  function StopFrom<V>(s: Script<V>, maxRetries: nat, a: nat): (stop: nat)
    requires a <= maxRetries
    ensures a <= stop <= maxRetries && !GoesOn(s, maxRetries, stop)
    ensures forall b :: a <= b < stop ==> GoesOn(s, maxRetries, b)
    decreases maxRetries - a
  {
    if GoesOn(s, maxRetries, a) then StopFrom(s, maxRetries, a + 1) else a
  }

  function Verdict<V>(s: Script<V>, maxRetries: nat, stop: nat): Result<V> {
    if s.cancelledBefore(stop) then Cancelled
    else match s.outcome(stop)
      case Ok(v) => Returned(v)
      case CancelledInCall => Cancelled
      case Fails(kind) => if Retryable(s.outcome(stop)) && stop < maxRetries then Cancelled else Exhausted(Some(kind))
  }

  function FailsAt<V>(s: Script<V>, a: nat): bool {
    !s.cancelledBefore(a) && s.outcome(a).Fails?
  }

  /** The breaker after the first `n` calls have each failed. */
  function Failed<V>(b: Breaker, s: Script<V>, n: nat): Breaker {
    if n == 0 then b else RecordFailure(Failed(b, s, n - 1), s.clock(n - 1))
  }

  /** The breaker after a loop that ended at attempt `stop`. */
  function Aftermath<V>(b: Breaker, s: Script<V>, stop: nat): Breaker {
    if s.cancelledBefore(stop) then Failed(b, s, stop)
    else match s.outcome(stop)
      case Ok(_) => RecordSuccess(Failed(b, s, stop), s.clock(stop))
      case CancelledInCall => Failed(b, s, stop)
      case Fails(_) => Failed(b, s, stop + 1)
  }

  function Pow2(n: nat): nat {
    if n == 0 then 1 else 2 * Pow2(n - 1)
  }

  /** The wait after attempt `a`, in milliseconds. */
  function Wait<V>(s: Script<V>, base: nat, a: nat): nat {
    base * Pow2(a) + s.jitter(a)
  }

  /** The waits asked for before attempt `n`. */
  function Backoff<V>(s: Script<V>, base: nat, n: nat): nat {
    if n == 0 then 0 else Backoff(s, base, n - 1) + Wait(s, base, n - 1)
  }

  function BackoffLimit(base: nat, retries: nat): int {
    base * (Pow2(retries) - 1) + 50 * retries
  }

  lemma Doubled(base: nat, p: nat)
    ensures base * (2 * p - 1) == base * (p - 1) + base * p
  {
  }

  lemma {:induction false} BackoffBound<V>(s: Script<V>, base: nat, n: nat, m: nat)
    requires n <= m && forall a :: s.jitter(a) <= 50
    ensures Backoff(s, base, n) <= BackoffLimit(base, m)
    decreases m
  {
    if m == 0 {
    } else {
      Doubled(base, Pow2(m - 1));
      BackoffBound(s, base, if n < m then n else n - 1, m - 1);
    }
  }

  lemma BackoffStep<V>(s: Script<V>, base: nat, n: nat)
    ensures Backoff(s, base, 0) == 0 && Backoff(s, base, n + 1) == Backoff(s, base, n) + Wait(s, base, n)
  {
  }

  /** The waits double: `n` of them come to no less than the geometric sum, and no more than that
      and fifty each. */
  lemma {:induction false} BackoffIsGeometric<V>(s: Script<V>, base: nat, n: nat)
    requires forall a :: s.jitter(a) <= 50
    ensures base * (Pow2(n) - 1) <= Backoff(s, base, n) <= base * (Pow2(n) - 1) + 50 * n
    decreases n
  {
    if n == 0 {
    } else {
      Doubled(base, Pow2(n - 1));
      BackoffIsGeometric(s, base, n - 1);
    }
  }

  /** With the default 200 ms the first two waits are 200 and 400 ms and their jitter. */
  lemma DefaultWaits<V>(s: Script<V>)
    ensures Backoff(s, 200, 1) == 200 + s.jitter(0)
    ensures Backoff(s, 200, 2) == 600 + s.jitter(0) + s.jitter(1)
  {
    assert Pow2(1) == 2;
  }

  // ----- what the loop does with each kind of failure -----

  /** Calls that fail with a rate limit, a timeout or a server error are made again, and the first
      one that returns settles the loop. */
  lemma {:induction false} RetriedUntilReturned<V>(s: Script<V>, maxRetries: nat, k: nat, v: V)
    requires k <= maxRetries
    requires forall a :: 0 <= a < k ==> !s.cancelledBefore(a) && !s.cancelledInWait(a)
    requires forall a :: 0 <= a < k ==>
               s.outcome(a) == Fails(RateLimit) || s.outcome(a) == Fails(Timeout) || s.outcome(a) == Fails(Server)
    requires !s.cancelledBefore(k) && s.outcome(k) == Ok(v)
    ensures StopFrom(s, maxRetries, 0) == k && Verdict(s, maxRetries, k) == Returned(v)
  {
    StopsWhere(s, maxRetries, 0, k);
  }

  /** An authentication error, or one of no known kind, ends it at once. */
  lemma {:induction false} RetriedUntilHopeless<V>(s: Script<V>, maxRetries: nat, k: nat, kind: Kind)
    requires k <= maxRetries && (kind == Auth || kind == Unknown)
    requires forall a :: 0 <= a < k ==> !s.cancelledBefore(a) && !s.cancelledInWait(a)
    requires forall a :: 0 <= a < k ==>
               s.outcome(a) == Fails(RateLimit) || s.outcome(a) == Fails(Timeout) || s.outcome(a) == Fails(Server)
    requires !s.cancelledBefore(k) && s.outcome(k) == Fails(kind)
    ensures StopFrom(s, maxRetries, 0) == k && Verdict(s, maxRetries, k) == Exhausted(Some(kind))
  {
    StopsWhere(s, maxRetries, 0, k);
  }

  /** When every call allowed fails in one of the three ways, the last one's kind is the result. */
  lemma {:induction false} RetriedInVain<V>(s: Script<V>, maxRetries: nat, kind: Kind)
    requires forall a :: 0 <= a <= maxRetries ==> !s.cancelledBefore(a) && (a < maxRetries ==> !s.cancelledInWait(a))
    requires forall a :: 0 <= a <= maxRetries ==>
               s.outcome(a) == Fails(RateLimit) || s.outcome(a) == Fails(Timeout) || s.outcome(a) == Fails(Server)
    requires s.outcome(maxRetries) == Fails(kind)
    ensures StopFrom(s, maxRetries, 0) == maxRetries && Verdict(s, maxRetries, maxRetries) == Exhausted(Some(kind))
  {
    StopsWhere(s, maxRetries, 0, maxRetries);
  }

  /** A cancellation before a call, in it, or in the wait after it ends the loop there; the call that
      was waited for is not made. */
  lemma {:induction false} RetriedUntilCancelled<V>(s: Script<V>, maxRetries: nat, k: nat)
    requires k <= maxRetries
    requires forall a :: 0 <= a < k ==> !s.cancelledBefore(a) && !s.cancelledInWait(a)
    requires forall a :: 0 <= a < k ==>
               s.outcome(a) == Fails(RateLimit) || s.outcome(a) == Fails(Timeout) || s.outcome(a) == Fails(Server)
    requires || s.cancelledBefore(k) || s.outcome(k) == CancelledInCall
             || (k < maxRetries && s.cancelledInWait(k)
                 && (s.outcome(k) == Fails(RateLimit) || s.outcome(k) == Fails(Timeout)
                     || s.outcome(k) == Fails(Server)))
    ensures StopFrom(s, maxRetries, 0) == k && Verdict(s, maxRetries, k) == Cancelled
  {
    StopsWhere(s, maxRetries, 0, k);
  }

  lemma {:induction false} StopsWhere<V>(s: Script<V>, maxRetries: nat, from: nat, a: nat)
    requires from <= a <= maxRetries && !GoesOn(s, maxRetries, a)
    requires forall b :: from <= b < a ==> GoesOn(s, maxRetries, b)
    ensures StopFrom(s, maxRetries, from) == a
    decreases a - from
  {
    if from < a {
      StopsWhere(s, maxRetries, from + 1, a);
    }
  }

  /** Each failing call adds exactly one to the counter; a call that returns clears it. */
  lemma {:induction false} FailuresCounted<V>(b: Breaker, s: Script<V>, n: nat)
    ensures Failed(b, s, n).failures == b.failures + n
  {
    if n == 0 {
    } else {
      FailuresCounted(b, s, n - 1);
    }
  }

  lemma AftermathCounter<V>(b: Breaker, s: Script<V>, maxRetries: nat)
    ensures var stop := StopFrom(s, maxRetries, 0);
            Aftermath(b, s, stop).failures ==
            if Verdict(s, maxRetries, stop).Returned? then 0
            else b.failures + stop + (if FailsAt(s, stop) then 1 else 0)
  {
    var stop := StopFrom(s, maxRetries, 0);
    FailuresCounted(b, s, stop);
    FailuresCounted(b, s, stop + 1);
  }

  /** The breaker keys of one provider and capability, in Redis. */
  class BreakerKeys {
    var failures: nat
    var mark: Option<Mark>

    function View(): Breaker
      reads this
    {
      Breaker(failures, mark)
    }

    constructor (b: Breaker)
      ensures View() == b
    {
      failures, mark := b.failures, b.mark;
    }

    method GetState(now: int) returns (c: Circuit)
      ensures c == StateAt(View(), now)
    {
      if mark.None? || (mark.value.expires.Some? && mark.value.expires.value <= now) {
        return Closed;
      }
      c := mark.value.circuit;
    }

    method Admits(now: int) returns (ok: bool)
      ensures ok == CanExecute(View(), now)
    {
      var state := GetState(now);
      if state == Closed {
        return true;
      } else if state == Open {
        return false;
      }
      ok := false;
    }

    method Fail(now: int)
      modifies this
      ensures View() == RecordFailure(old(View()), now)
    {
      failures := failures + 1;
      if failures >= MAX_FAILURES {
        var current := GetState(now);
        if current != Open {
          mark := Some(Mark(Open, Some(now + COOLDOWN)));
        }
      }
    }

    method Succeed(now: int)
      modifies this
      ensures View() == RecordSuccess(old(View()), now)
    {
      var current := GetState(now);
      if current == HalfOpen || current == Open {
        mark := Some(Mark(Closed, None));
      }
      failures := 0;
    }
  }

  /** `with_retries`. `slept` is the backoff it asked for and `calls` the calls it made. */
  method WithRetries<V>(keys: BreakerKeys, s: Script<V>, maxRetries: nat, base: nat, now: int)
    returns (r: Result<V>, calls: nat, slept: nat)
    requires forall a :: s.jitter(a) <= 50
    modifies keys
    ensures !CanExecute(old(keys.View()), now) ==>
              r == Exhausted(None) && calls == 0 && slept == 0 && keys.View() == old(keys.View())
    ensures CanExecute(old(keys.View()), now) ==>
              var stop := StopFrom(s, maxRetries, 0);
              && r == Verdict(s, maxRetries, stop)
              && calls == (if s.cancelledBefore(stop) then stop else stop + 1)
              && slept == Backoff(s, base, if FailsAt(s, stop) && r == Cancelled then stop + 1 else stop)
              && keys.View() == Aftermath(old(keys.View()), s, stop)
    ensures calls <= maxRetries + 1 && slept <= BackoffLimit(base, maxRetries)
  {
    hide Wait;
    hide Backoff;
    hide BackoffLimit;
    hide RecordFailure;
    hide RecordSuccess;
    hide CanExecute;
    calls, slept := 0, 0;
    BackoffBound(s, base, 0, maxRetries);
    BackoffStep(s, base, 0);
    var admitted := keys.Admits(now);
    if !admitted {
      return Exhausted(None), 0, 0;
    }
    var attempts := 0;
    while attempts <= maxRetries
      invariant attempts <= maxRetries && calls == attempts
      invariant forall b :: 0 <= b < attempts ==> GoesOn(s, maxRetries, b)
      invariant StopFrom(s, maxRetries, 0) == StopFrom(s, maxRetries, attempts)
      invariant keys.View() == Failed(old(keys.View()), s, attempts)
      invariant slept == Backoff(s, base, attempts)
      decreases maxRetries - attempts
    {
      BackoffBound(s, base, attempts, maxRetries);
      BackoffStep(s, base, attempts);
      if s.cancelledBefore(attempts) {
        return Cancelled, calls, slept;
      }
      calls := calls + 1;
      match s.outcome(attempts) {
        case Ok(v) =>
          keys.Succeed(s.clock(attempts));
          return Returned(v), calls, slept;
        case CancelledInCall =>
          return Cancelled, calls, slept;
        case Fails(kind) =>
          keys.Fail(s.clock(attempts));
          if kind == Auth || kind == Unknown {
            return Exhausted(Some(kind)), calls, slept;
          }
          attempts := attempts + 1;
          if attempts > maxRetries {
            return Exhausted(Some(kind)), calls, slept;
          }
          slept := slept + Wait(s, base, attempts - 1);
          BackoffBound(s, base, attempts, maxRetries);
          if s.cancelledInWait(attempts - 1) {
            return Cancelled, calls, slept;
          }
      }
    }
    assert false;
  }
}
