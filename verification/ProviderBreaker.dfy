/** The backend's per-provider circuit breaker. */
module ProviderBreaker {

  type Provider = string

  datatype Circuit = Closed | Open | HalfOpen

  datatype Config = Config(failureThreshold: int, recoveryTimeout: int, halfOpenMaxCalls: int, successThreshold: int)

  datatype Entry = Entry(state: Circuit, failures: nat, successes: nat, lastFailure: int, halfOpenCalls: nat)

  /** What happens to one provider, with the monotonic clock where it is read. */
  datatype Event = Ask(now: int) | Success | Failure(now: int)

  const FRESH := Entry(Closed, 0, 0, 0, 0)

  function Step(cfg: Config, s: Entry, e: Event): Entry {
    match e
    case Ask(now) =>
      if s.state == Open && now - s.lastFailure >= cfg.recoveryTimeout
      then s.(state := HalfOpen, halfOpenCalls := 0, successes := 0) else s
    case Success =>
      if s.state == HalfOpen then
        if s.successes + 1 >= cfg.successThreshold
        then s.(state := Closed, successes := s.successes + 1, failures := 0)
        else s.(successes := s.successes + 1)
      else if s.state == Closed then s.(failures := if s.failures == 0 then 0 else s.failures - 1)
      else s
    case Failure(now) =>
      var t := s.(failures := s.failures + 1, lastFailure := now);
      if s.state == HalfOpen || (s.state == Closed && t.failures >= cfg.failureThreshold) then t.(state := Open) else t
  }

  /** The answer `can_call` gives in state `s`. */
  function Allows(cfg: Config, s: Entry, now: int): bool {
    match s.state
    case Closed => true
    case Open => now - s.lastFailure >= cfg.recoveryTimeout
    case HalfOpen => s.halfOpenCalls < cfg.halfOpenMaxCalls
  }

  function Run(cfg: Config, s: Entry, h: seq<Event>): Entry
    decreases |h|
  {
    if h == [] then s else Step(cfg, Run(cfg, s, h[..|h| - 1]), h[|h| - 1])
  }

  // ----- the breaker object -----

  function Lookup(providers: map<Provider, Entry>, p: Provider): Entry {
    if p in providers then providers[p] else FRESH
  }

  class CircuitBreaker {
    const cfg: Config
    var providers: map<Provider, Entry>
    ghost var history: seq<(Provider, Event)>   // every operation so far

    ghost predicate Valid()
      reads this
    {
      providers == RunAll(cfg, history)
    }

    constructor (cfg: Config)
      ensures this.cfg == cfg && providers == map[] && history == [] && Valid()
    {
      this.cfg := cfg;
      providers := map[];
      history := [];
    }

    method GetState(p: Provider) returns (s: Entry)
      modifies this`providers
      ensures s == Lookup(old(providers), p) && providers == old(providers)[p := s]
    {
      if p !in providers {
        providers := providers[p := FRESH];
      }
      s := providers[p];
      assert providers == old(providers)[p := s];
    }

    /** On the provider's own history: allowed until some window reaches the threshold; while it is
        open, allowed exactly from the recovery timeout after the latest failure on. */
    method CanCall(p: Provider, now: int) returns (ok: bool)
      requires Valid()
      modifies this
      ensures Valid() && history == old(history) + [(p, Ask(now))]
      ensures ok == Allows(cfg, Lookup(old(providers), p), now)
      ensures providers == old(providers)[p := Step(cfg, Lookup(old(providers), p), Ask(now))]
      ensures var h := Project(old(history), p);
              && ((forall j :: !ThresholdReached(cfg, h, j)) ==> ok)
              && (forall f: nat :: OpenSince(cfg, h, f) ==> (ok <==> now - h[f].now >= cfg.recoveryTimeout))
    {
      hide OpenSince;
      hide ThresholdReached;
      hide Project;
      AnswersByHistory(cfg, history, p, now);
      hide RunAll;
      RunAllSnoc(cfg, history, p, Ask(now));
      history := history + [(p, Ask(now))];
      var s := GetState(p);
      if s.state == Closed {
        return true;
      }
      if s.state == Open {
        if now - s.lastFailure >= cfg.recoveryTimeout {
          providers := providers[p := s.(state := HalfOpen, halfOpenCalls := 0, successes := 0)];
          return true;
        }
        return false;
      }
      ok := s.halfOpenCalls < cfg.halfOpenMaxCalls;
    }

    method RecordSuccess(p: Provider)
      requires Valid()
      modifies this
      ensures Valid() && history == old(history) + [(p, Success)]
      ensures providers == old(providers)[p := Step(cfg, Lookup(old(providers), p), Success)]
    {
      hide RunAll;
      RunAllSnoc(cfg, history, p, Success);
      history := history + [(p, Success)];
      var s := GetState(p);
      if s.state == HalfOpen {
        s := s.(successes := s.successes + 1);
        if s.successes >= cfg.successThreshold {
          s := s.(state := Closed, failures := 0);
        }
      } else if s.state == Closed {
        s := s.(failures := if s.failures - 1 > 0 then s.failures - 1 else 0);
      }
      providers := providers[p := s];
    }

    method RecordFailure(p: Provider, now: int)
      requires Valid()
      modifies this
      ensures Valid() && history == old(history) + [(p, Failure(now))]
      ensures providers == old(providers)[p := Step(cfg, Lookup(old(providers), p), Failure(now))]
    {
      hide RunAll;
      RunAllSnoc(cfg, history, p, Failure(now));
      history := history + [(p, Failure(now))];
      var s := GetState(p);
      s := s.(failures := s.failures + 1, lastFailure := now);
      if s.state == HalfOpen {
        s := s.(state := Open);
      } else if s.state == Closed && s.failures >= cfg.failureThreshold {
        s := s.(state := Open);
      }
      providers := providers[p := s];
    }
  }

  // ----- providers do not affect each other -----

  function RunAll(cfg: Config, h: seq<(Provider, Event)>): map<Provider, Entry>
    decreases |h|
  {
    if h == [] then map[]
    else
      var before := RunAll(cfg, h[..|h| - 1]);
      var (p, e) := h[|h| - 1];
      before[p := Step(cfg, Lookup(before, p), e)]
  }

  lemma RunAllSnoc(cfg: Config, h: seq<(Provider, Event)>, p: Provider, e: Event)
    ensures RunAll(cfg, h + [(p, e)]) == RunAll(cfg, h)[p := Step(cfg, Lookup(RunAll(cfg, h), p), e)]
  {
    assert (h + [(p, e)])[..|h|] == h;
  }

  function Project(h: seq<(Provider, Event)>, p: Provider): seq<Event>
    decreases |h|
  {
    if h == [] then []
    else Project(h[..|h| - 1], p) + (if h[|h| - 1].0 == p then [h[|h| - 1].1] else [])
  }

  /** A provider's entry depends on that provider's own events only. */
  lemma {:induction false} ProvidersIndependent(cfg: Config, h: seq<(Provider, Event)>, p: Provider)
    ensures Lookup(RunAll(cfg, h), p) == Run(cfg, FRESH, Project(h, p))
    decreases |h|
  {
    if h == [] {
    } else {
      var g := h[..|h| - 1];
      ProvidersIndependent(cfg, g, p);
      if h[|h| - 1].0 == p {
        assert Project(h, p)[..|Project(h, p)| - 1] == Project(g, p);
      } else {
        assert Project(h, p) == Project(g, p);
      }
    }
  }

  // ----- while closed: the leaky counter is the worst recent surplus of failures -----

  /** Failures minus successes in a window. */
  function Surplus(h: seq<Event>): int
    decreases |h|
  {
    if h == [] then 0
    else Surplus(h[..|h| - 1]) + (match h[|h| - 1] case Failure(_) => 1 case Success => -1 case Ask(_) => 0)
  }

  /** `m` is the largest surplus over the suffixes of `h`, the empty one included. */
  ghost predicate LargestSurplus(m: int, h: seq<Event>) {
    && (exists i :: 0 <= i <= |h| && Surplus(h[i..]) == m)
    && (forall i :: 0 <= i <= |h| ==> Surplus(h[i..]) <= m)
  }

  ghost predicate StaysClosed(cfg: Config, s: Entry, h: seq<Event>) {
    forall k :: 0 <= k <= |h| ==> Run(cfg, s, h[..k]).state == Closed
  }

  lemma SuffixSnoc(h: seq<Event>, i: nat)
    requires i < |h|
    ensures Surplus(h[i..]) == Surplus(h[..|h| - 1][i..]) + Surplus([h[|h| - 1]])
  {
    assert h[i..][..|h[i..]| - 1] == h[..|h| - 1][i..];
    assert [h[|h| - 1]][..0] == [];
  }

  lemma StaysClosedPrefix(cfg: Config, s: Entry, h: seq<Event>)
    requires h != []
    ensures StaysClosed(cfg, s, h) <==> StaysClosed(cfg, s, h[..|h| - 1]) && Run(cfg, s, h).state == Closed
  {
    hide Run;
    var g := h[..|h| - 1];
    assert h[..|h|] == h;
    forall k: nat | k <= |g| ensures h[..k] == g[..k] {
    }
    if StaysClosed(cfg, s, g) && Run(cfg, s, h).state == Closed {
      forall k | 0 <= k <= |h| ensures Run(cfg, s, h[..k]).state == Closed {
        if k < |h| {
          assert Run(cfg, s, g[..k]).state == Closed;
        }
      }
    }
  }

  lemma LargestSurplusStep(m: nat, h: seq<Event>)
    requires h != [] && LargestSurplus(m, h[..|h| - 1])
    ensures match h[|h| - 1]
            case Failure(_) => LargestSurplus(m + 1, h)
            case Success => LargestSurplus(if m == 0 then 0 else m - 1, h)
            case Ask(_) => LargestSurplus(m, h)
  {
    var g := h[..|h| - 1];
    var d := Surplus([h[|h| - 1]]);
    assert [h[|h| - 1]][..0] == [];
    forall i: nat | i < |h|
      ensures Surplus(h[i..]) == Surplus(g[i..]) + d
    {
      SuffixSnoc(h, i);
    }
    var i :| 0 <= i <= |g| && Surplus(g[i..]) == m;
    assert Surplus(h[i..]) == m + d;
    assert Surplus(h[|h|..]) == 0;
  }

  /** From a fresh or just closed entry, the counter is exactly the largest surplus of failures
      over successes among all suffixes of what has happened since. */
  lemma {:induction false} CounterIsLargestSurplus(cfg: Config, s: Entry, h: seq<Event>)
    requires s.state == Closed && s.failures == 0 && StaysClosed(cfg, s, h)
    ensures LargestSurplus(Run(cfg, s, h).failures, h)
    decreases |h|
  {
    if h == [] {
      assert Surplus(h[0..]) == 0;
    } else {
      StaysClosedPrefix(cfg, s, h);
      CounterIsLargestSurplus(cfg, s, h[..|h| - 1]);
      LargestSurplusStep(Run(cfg, s, h[..|h| - 1]).failures, h);
    }
  }

  /** Some window ending in the failure at `j - 1` reaches the threshold. */
  ghost predicate ThresholdReached(cfg: Config, h: seq<Event>, j: nat) {
    0 < j <= |h| && h[j - 1].Failure? && exists i :: 0 <= i < j && Surplus(h[i..j]) >= cfg.failureThreshold
  }

  lemma BestWindow(h: seq<Event>, f: int, threshold: int)
    requires h != [] && h[|h| - 1].Failure? && LargestSurplus(f, h[..|h| - 1])
    ensures (exists i :: 0 <= i < |h| && Surplus(h[i..|h|]) >= threshold) <==> f + 1 >= threshold
  {
    var g := h[..|h| - 1];
    assert Surplus([h[|h| - 1]]) == 1 by { assert [h[|h| - 1]][..0] == []; }
    forall i: nat | i < |h|
      ensures Surplus(h[i..|h|]) == Surplus(g[i..]) + 1
    {
      SuffixSnoc(h, i);
      assert h[i..|h|] == h[i..];
    }
    var i :| 0 <= i <= |g| && Surplus(g[i..]) == f;
    assert Surplus(h[i..|h|]) == f + 1;
  }

  lemma TripsOnLast(cfg: Config, s: Entry, h: seq<Event>)
    requires h != [] && s.state == Closed && s.failures == 0 && StaysClosed(cfg, s, h[..|h| - 1])
    ensures Run(cfg, s, h).state != Closed <==> ThresholdReached(cfg, h, |h|)
  {
    var g := h[..|h| - 1];
    CounterIsLargestSurplus(cfg, s, g);
    assert Run(cfg, s, g).state == Closed by { assert g[..|g|] == g; }
    hide LargestSurplus;
    hide StaysClosed;
    hide Surplus;
    if h[|h| - 1].Failure? {
      BestWindow(h, Run(cfg, s, g).failures, cfg.failureThreshold);
    }
  }

  /** The breaker trips exactly when some window of outcomes ending in a failure first holds a
      surplus of failures that reaches the threshold. */
  lemma {:induction false} TripsIff(cfg: Config, s: Entry, h: seq<Event>)
    requires s.state == Closed && s.failures == 0
    ensures !StaysClosed(cfg, s, h) <==> exists j :: ThresholdReached(cfg, h, j)
    decreases |h|
  {
    if h == [] {
      assert Run(cfg, s, h[..0]) == s;
    } else {
      var g := h[..|h| - 1];
      TripsIff(cfg, s, g);
      StaysClosedPrefix(cfg, s, h);
      forall j: nat | j <= |g|
        ensures ThresholdReached(cfg, g, j) <==> ThresholdReached(cfg, h, j)
      {
        assert forall i :: 0 <= i < j ==> g[i..j] == h[i..j];
      }
      if StaysClosed(cfg, s, g) {
        TripsOnLast(cfg, s, h);
      }
    }
  }

  // ----- the answers, on the history -----

  /** Until some window reaches the threshold every call is allowed. */
  lemma AllowedUntilThreshold(cfg: Config, h: seq<Event>, now: int)
    requires forall j :: !ThresholdReached(cfg, h, j)
    ensures Allows(cfg, Run(cfg, FRESH, h), now)
  {
    hide ThresholdReached;
    TripsIff(cfg, FRESH, h);
    assert h[..|h|] == h;
  }

  /** The failure at step `f` is the latest before step `m`. */
  ghost predicate LatestFailure(h: seq<Event>, m: nat, f: nat) {
    f < m <= |h| && h[f].Failure? && forall g :: f < g < m ==> !h[g].Failure?
  }

  /** The latest failure is at step `f`; the threshold was first reached at some step, and nobody has
      asked since then with the recovery timeout over. */
  ghost predicate OpenSince(cfg: Config, h: seq<Event>, f: nat) {
    && LatestFailure(h, |h|, f)
    && exists j :: TrippedAt(cfg, h, j) && NoAskInTime(cfg, h, j)
  }

  ghost predicate TrippedAt(cfg: Config, h: seq<Event>, j: nat) {
    ThresholdReached(cfg, h, j) && forall i :: 0 <= i < j ==> !ThresholdReached(cfg, h, i)
  }

  ghost predicate NoAskInTime(cfg: Config, h: seq<Event>, j: nat) {
    forall m: nat, f: nat :: j <= m < |h| && h[m].Ask? && LatestFailure(h, m, f) ==>
        h[m].now - h[f].now < cfg.recoveryTimeout
  }

  lemma TripsAt(cfg: Config, h: seq<Event>, j: nat)
    requires TrippedAt(cfg, h, j)
    ensures Run(cfg, FRESH, h[..j]).state == Open
  {
    var g := h[..j - 1];
    assert h[..j][..j - 1] == g;
    forall i: nat ensures !ThresholdReached(cfg, g, i) {
      if 0 < i <= |g| {
        assert forall k :: 0 <= k < i ==> g[k..i] == h[k..i];
        assert !ThresholdReached(cfg, h, i);
      }
    }
    assert forall k :: 0 <= k < j ==> h[..j][k..j] == h[k..j];
    TripsIff(cfg, FRESH, g);
    TripsOnLast(cfg, FRESH, h[..j]);
    assert g[..|g|] == g;
    hide ThresholdReached;
  }

  lemma {:induction false} StaysOpen(cfg: Config, h: seq<Event>, j: nat, n: nat)
    requires TrippedAt(cfg, h, j) && NoAskInTime(cfg, h, j) && j <= n <= |h|
    ensures Run(cfg, FRESH, h[..n]).state == Open
    decreases n
  {
    if n == j {
      TripsAt(cfg, h, j);
    } else {
      StaysOpen(cfg, h, j, n - 1);
      assert h[..n][..n - 1] == h[..n - 1];
      if h[n - 1].Ask? {
        var f := LatestBefore(h, n - 1, j - 1);
        LastFailureIsLatest(cfg, FRESH, h[..n - 1], f);
      }
    }
  }

  lemma {:induction false} LatestBefore(h: seq<Event>, m: nat, i: nat) returns (f: nat)
    requires i < m <= |h| && h[i].Failure?
    ensures LatestFailure(h, m, f)
    decreases m
  {
    if h[m - 1].Failure? {
      f := m - 1;
    } else {
      f := LatestBefore(h, m - 1, i);
    }
  }

  /** While it is open a call is allowed exactly when the recovery timeout has passed since the
      latest failure. */
  lemma AllowedAfterTimeout(cfg: Config, h: seq<Event>, f: nat, now: int)
    requires OpenSince(cfg, h, f)
    ensures Allows(cfg, Run(cfg, FRESH, h), now) <==> now - h[f].now >= cfg.recoveryTimeout
  {
    var j :| TrippedAt(cfg, h, j) && NoAskInTime(cfg, h, j);
    StaysOpen(cfg, h, j, |h|);
    assert h[..|h|] == h;
    LastFailureIsLatest(cfg, FRESH, h, f);
  }

  lemma AnswersByHistory(cfg: Config, history: seq<(Provider, Event)>, p: Provider, now: int)
    ensures var h := Project(history, p);
            var ok := Allows(cfg, Lookup(RunAll(cfg, history), p), now);
            && ((forall j :: !ThresholdReached(cfg, h, j)) ==> ok)
            && (forall f: nat :: OpenSince(cfg, h, f) ==> (ok <==> now - h[f].now >= cfg.recoveryTimeout))
  {
    ProvidersIndependent(cfg, history, p);
    var h := Project(history, p);
    hide ThresholdReached;
    hide Allows;
    if forall j :: !ThresholdReached(cfg, h, j) {
      AllowedUntilThreshold(cfg, h, now);
    }
    forall f: nat | OpenSince(cfg, h, f)
      ensures Allows(cfg, Run(cfg, FRESH, h), now) <==> now - h[f].now >= cfg.recoveryTimeout
    {
      AllowedAfterTimeout(cfg, h, f, now);
    }
  }

  // ----- the way back -----

  function Successes(h: seq<Event>): nat
    decreases |h|
  {
    if h == [] then 0 else Successes(h[..|h| - 1]) + (if h[|h| - 1].Success? then 1 else 0)
  }

  ghost predicate NeverClosed(cfg: Config, s: Entry, h: seq<Event>) {
    forall k :: 0 <= k <= |h| ==> Run(cfg, s, h[..k]).state != Closed
  }

  function Needed(cfg: Config): int {
    if cfg.successThreshold <= 1 then 1 else cfg.successThreshold
  }

  /** At step `k` the open breaker was asked once the recovery timeout had passed since the last
      failure, and no call has failed after that. */
  ghost predicate ProbationFrom(cfg: Config, s: Entry, h: seq<Event>, k: nat) {
    && k < |h| && h[k].Ask?
    && Run(cfg, s, h[..k]).state == Open
    && h[k].now - Run(cfg, s, h[..k]).lastFailure >= cfg.recoveryTimeout
    && forall m :: k < m < |h| ==> !h[m].Failure?
  }

  lemma SuccessesSnoc(h: seq<Event>, k: nat)
    requires k < |h|
    ensures Successes(h[k..]) == Successes(h[..|h| - 1][k..]) + (if h[|h| - 1].Success? then 1 else 0)
  {
    assert h[k..][..|h[k..]| - 1] == h[..|h| - 1][k..];
  }

  lemma NeverClosedPrefix(cfg: Config, s: Entry, h: seq<Event>)
    requires h != [] && NeverClosed(cfg, s, h)
    ensures NeverClosed(cfg, s, h[..|h| - 1]) && Run(cfg, s, h[..|h| - 1]).state != Closed
  {
    hide Run;
    var g := h[..|h| - 1];
    assert forall k :: 0 <= k <= |g| ==> h[..k] == g[..k];
    assert g[..|g|] == g;
  }

  lemma {:induction false} HalfOpenProbation(cfg: Config, s: Entry, h: seq<Event>) returns (k: nat)
    requires s.state == Open && NeverClosed(cfg, s, h) && Run(cfg, s, h).state == HalfOpen
    ensures ProbationFrom(cfg, s, h, k)
    ensures Run(cfg, s, h).successes == Successes(h[k + 1..]) < Needed(cfg)
    decreases |h|
  {
    var g := h[..|h| - 1];
    NeverClosedPrefix(cfg, s, h);
    hide NeverClosed;
    if Run(cfg, s, g).state == HalfOpen {
      k := HalfOpenProbation(cfg, s, g);
      assert h[..k] == g[..k];
      SuccessesSnoc(h, k + 1);
    } else {
      k := |g|;
      assert h[k + 1..] == [];
    }
  }

  /** Once tripped, the breaker closes only after the recovery timeout since the last failure and
      then the success threshold met in full with no failure between; it closes with a clear counter. */
  lemma ClosesOnlyAfterProbation(cfg: Config, s: Entry, h: seq<Event>) returns (k: nat)
    requires s.state == Open && h != []
    requires NeverClosed(cfg, s, h[..|h| - 1]) && Run(cfg, s, h).state == Closed
    ensures ProbationFrom(cfg, s, h, k)
    ensures h[|h| - 1] == Success && Successes(h[k + 1..]) == Needed(cfg)
    ensures Run(cfg, s, h).failures == 0
  {
    var g := h[..|h| - 1];
    assert g[..|g|] == g;
    k := HalfOpenProbation(cfg, s, g);
    assert h[..k] == g[..k];
    SuccessesSnoc(h, k + 1);
  }

  /** And on probation, without failures, that many successes do close it and fewer do not. */
  lemma {:induction false} ProbationOutcome(cfg: Config, s: Entry, h: seq<Event>)
    requires s.state == HalfOpen && s.successes == 0
    requires forall m :: 0 <= m < |h| ==> !h[m].Failure?
    ensures Run(cfg, s, h).state == if Successes(h) >= Needed(cfg) then Closed else HalfOpen
    ensures Run(cfg, s, h).state == HalfOpen ==> Run(cfg, s, h).successes == Successes(h)
    decreases |h|
  {
    if h == [] {
    } else {
      ProbationOutcome(cfg, s, h[..|h| - 1]);
    }
  }

  /** The ask that is allowed starts a probation, and only that one: with no failure after it the breaker
      is closed once enough calls have succeeded, and half-open until then. */
  lemma ProbationStarts(cfg: Config, h: seq<Event>, f: nat, now: int, g: seq<Event>)
    requires OpenSince(cfg, h, f) && forall m :: 0 <= m < |g| ==> !g[m].Failure?
    ensures now - h[f].now < cfg.recoveryTimeout ==> Run(cfg, FRESH, h + [Ask(now)]).state == Open
    ensures now - h[f].now >= cfg.recoveryTimeout ==>
              Run(cfg, FRESH, h + [Ask(now)] + g).state == if Successes(g) >= Needed(cfg) then Closed else HalfOpen
  {
    var asked := h + [Ask(now)];
    assert asked[..|h|] == h;
    var j :| TrippedAt(cfg, h, j) && NoAskInTime(cfg, h, j);
    StaysOpen(cfg, h, j, |h|);
    assert h[..|h|] == h;
    LastFailureIsLatest(cfg, FRESH, h, f);
    if now - h[f].now >= cfg.recoveryTimeout {
      ProbationOutcome(cfg, Run(cfg, FRESH, asked), g);
      RunAppend(cfg, FRESH, asked, g);
    }
  }

  lemma {:induction false} RunAppend(cfg: Config, s: Entry, h: seq<Event>, g: seq<Event>)
    ensures Run(cfg, s, h + g) == Run(cfg, Run(cfg, s, h), g)
    decreases |g|
  {
    if g == [] {
      assert h + g == h;
    } else {
      assert (h + g)[..|h + g| - 1] == h + g[..|g| - 1];
      RunAppend(cfg, s, h, g[..|g| - 1]);
    }
  }

  /** The recorded failure time is that of the latest failure. */
  lemma {:induction false} LastFailureIsLatest(cfg: Config, s: Entry, h: seq<Event>, i: nat)
    requires i < |h| && h[i].Failure? && forall m :: i < m < |h| ==> !h[m].Failure?
    ensures Run(cfg, s, h).lastFailure == h[i].now
    decreases |h|
  {
    if i < |h| - 1 {
      LastFailureIsLatest(cfg, s, h[..|h| - 1], i);
    }
  }

  /** The half-open call counter is never raised, so the configured probe limit never turns a call
      away: half-open admits every call, or none if the limit is not positive. */
  lemma {:induction false} HalfOpenNeverFillsUp(cfg: Config, h: seq<Event>, now: int)
    ensures Run(cfg, FRESH, h).halfOpenCalls == 0
    ensures Run(cfg, FRESH, h).state == HalfOpen ==>
            (Allows(cfg, Run(cfg, FRESH, h), now) <==> 0 < cfg.halfOpenMaxCalls)
    decreases |h|
  {
    if h == [] {
    } else {
      HalfOpenNeverFillsUp(cfg, h[..|h| - 1], now);
    }
  }
}
