/** The gateway's breaker as its workers really share it: every Redis command is its own step, so
    the operations of `GatewayResilience` can interleave. What survives, and what an operation that
    is left alone does. */
module SharedBreaker {

  import opened Options
  import R = GatewayResilience

  type Worker = nat

  /** Where a worker is inside an operation; a worker between operations has no entry. */
  datatype Pending =
    | Counted    // its increment returned at least the maximum; reads the state next
    | SawNotOpen // sets the state to open next
    | SawOpen    // a success on a breaker not closed; sets the state to closed next
    | Resetting  // deletes the counter, for the first time of two
    | Clearing   // deletes the counter
    | Probing    // found half-open; tries to claim the probe next

  datatype State = State(now: int, failures: nat, mark: Option<R.Mark>, tasks: map<Worker, Pending>)

  datatype Step =
    | Tick(seconds: nat)
    | Increment(w: Worker)    // `record_failure`
    | FailureReads(w: Worker)
    | SetOpen(w: Worker)
    | SuccessReads(w: Worker) // `record_success`
    | SetClosed(w: Worker)
    | Delete(w: Worker)
    | CheckReads(w: Worker)   // `can_execute`
    | SetHalfOpen(w: Worker)
    | Abort(w: Worker)        // a command raises or the worker is cancelled

  const INITIAL := State(0, 0, None, map[])

  function View(s: State): R.Breaker {
    R.Breaker(s.failures, s.mark)
  }

  function Circuit(s: State): R.Circuit {
    R.StateAt(View(s), s.now)
  }

  predicate At(s: State, w: Worker, p: Pending) {
    w in s.tasks && s.tasks[w] == p
  }

  predicate Enabled(s: State, e: Step) {
    match e
    case Tick(_) => true
    case Increment(w) => w !in s.tasks
    case FailureReads(w) => At(s, w, Counted)
    case SetOpen(w) => At(s, w, SawNotOpen)
    case SuccessReads(w) => w !in s.tasks
    case SetClosed(w) => At(s, w, SawOpen)
    case Delete(w) => At(s, w, Resetting) || At(s, w, Clearing)
    case CheckReads(w) => w !in s.tasks
    case SetHalfOpen(w) => At(s, w, Probing)
    case Abort(w) => w in s.tasks
  }

  function Put(s: State, w: Worker, p: Pending): State {
    s.(tasks := s.tasks[w := p])
  }

  function Done(s: State, w: Worker): State {
    s.(tasks := s.tasks - {w})
  }

  function Apply(s: State, e: Step): State {
    match e
    case Tick(d) => s.(now := s.now + d)
    case Increment(w) =>
      var t := s.(failures := s.failures + 1);
      if t.failures >= R.MAX_FAILURES then Put(t, w, Counted) else t
    case FailureReads(w) => if Circuit(s) != R.Open then Put(s, w, SawNotOpen) else Done(s, w)
    case SetOpen(w) => Done(s.(mark := Some(R.Mark(R.Open, Some(s.now + R.COOLDOWN)))), w)
    case SuccessReads(w) => Put(s, w, if Circuit(s) == R.Closed then Clearing else SawOpen)
    case SetClosed(w) => Put(s.(mark := Some(R.Mark(R.Closed, None))), w, Resetting)
    case Delete(w) =>
      var t := s.(failures := 0);
      if At(s, w, Resetting) then Put(t, w, Clearing) else Done(t, w)
    case CheckReads(w) => if Circuit(s) == R.HalfOpen then Put(s, w, Probing) else s
    case SetHalfOpen(w) =>
      var absent := s.mark.None? || (s.mark.value.expires.Some? && s.mark.value.expires.value <= s.now);
      Done(if absent then s.(mark := Some(R.Mark(R.HalfOpen, Some(s.now + R.COOLDOWN)))) else s, w)
    case Abort(w) => Done(s, w)
  }

  function After(h: seq<Step>): State
    decreases |h|
  {
    if h == [] then INITIAL else Apply(After(h[..|h| - 1]), h[|h| - 1])
  }

  ghost predicate Run(h: seq<Step>)
    decreases |h|
  {
    h == [] || (Run(h[..|h| - 1]) && Enabled(After(h[..|h| - 1]), h[|h| - 1]))
  }

  lemma Unsnoc(h: seq<Step>) returns (g: seq<Step>, e: Step)
    requires h != [] && Run(h)
    ensures h == g + [e] && Run(g) && Enabled(After(g), e) && After(h) == Apply(After(g), e)
    ensures forall i {:trigger g[..i]} :: 0 <= i <= |g| ==> h[..i] == g[..i]
    ensures forall i :: 0 <= i < |g| ==> h[i] == g[i]
  {
    g, e := h[..|h| - 1], h[|h| - 1];
  }

  /** The clock moves by the ticks alone, and an aborted operation writes nothing more. */
  lemma TickAndAbort(s: State, seconds: nat, w: Worker)
    ensures Apply(s, Tick(seconds)) == s.(now := s.now + seconds)
    ensures View(Apply(s, Abort(w))) == View(s) && Apply(s, Abort(w)).now == s.now
    ensures forall e :: Enabled(Apply(s, Abort(w)), e) ==>
              (e.FailureReads? || e.SetOpen? || e.SetClosed? || e.Delete? ==> e.w != w)
  {
  }

  // ----- an operation left alone -----

  /** All the commands of one `record_failure`. */
  function Fail(s: State, w: Worker): State {
    var counted := Apply(s, Increment(w));
    if w !in counted.tasks then counted else
    var read := Apply(counted, FailureReads(w));
    if w !in read.tasks then read else Apply(read, SetOpen(w))
  }

  /** All the commands of one `record_success`. */
  function Succeed(s: State, w: Worker): State {
    var read := Apply(s, SuccessReads(w));
    if At(read, w, Clearing) then Apply(read, Delete(w))
    else Apply(Apply(Apply(read, SetClosed(w)), Delete(w)), Delete(w))
  }

  /** Uninterrupted, the commands of a failure come to the one-step operation. */
  lemma FailAlone(s: State, w: Worker)
    requires w !in s.tasks
    ensures View(Fail(s, w)) == R.RecordFailure(View(s), s.now) && Fail(s, w).tasks == s.tasks
  {
    assert s.tasks[w := Counted] - {w} == s.tasks;
    assert s.tasks[w := Counted][w := SawNotOpen] - {w} == s.tasks;
  }

  /** And so do those of a success. */
  lemma SucceedAlone(s: State, w: Worker)
    requires w !in s.tasks
    ensures View(Succeed(s, w)) == R.RecordSuccess(View(s), s.now) && Succeed(s, w).tasks == s.tasks
  {
    assert s.tasks[w := Clearing] - {w} == s.tasks;
    assert s.tasks[w := SawOpen][w := Resetting][w := Clearing] - {w} == s.tasks;
  }

  // ----- what survives every interleaving -----

  ghost predicate NoHalfOpen(s: State) {
    && (s.mark.Some? ==> s.mark.value.circuit != R.HalfOpen)
    && (forall w :: w in s.tasks ==> s.tasks[w] != Probing)
  }

  /** Half-open is never stored, so nobody ever gets to claim a probe. */
  lemma {:induction false} HalfOpenNeverStored(h: seq<Step>)
    requires Run(h)
    ensures NoHalfOpen(After(h)) && Circuit(After(h)) != R.HalfOpen
    decreases |h|
  {
    if h == [] {
    } else {
      var g, e := Unsnoc(h);
      HalfOpenNeverStored(g);
    }
  }

  /** Increments since the counter was last deleted. */
  function Increments(h: seq<Step>): nat
    decreases |h|
  {
    if h == [] || h[|h| - 1].Delete? then 0
    else Increments(h[..|h| - 1]) + if h[|h| - 1].Increment? then 1 else 0
  }

  lemma {:induction false} CounterIsIncrements(h: seq<Step>)
    ensures After(h).failures == Increments(h)
    decreases |h|
  {
    if h == [] {
    } else {
      CounterIsIncrements(h[..|h| - 1]);
    }
  }

  predicate WritesState(e: Step) {
    e.SetOpen? || e.SetClosed? || e.SetHalfOpen?
  }

  /** Worker `w`'s increment at step `i` made a full run of failures. */
  ghost predicate FullAt(h: seq<Step>, i: nat, w: Worker) {
    i < |h| && h[i] == Increment(w) && Increments(h[..i + 1]) >= R.MAX_FAILURES
  }

  /** And at step `j` it then found the breaker not open. */
  ghost predicate ReadAfter(h: seq<Step>, i: nat, j: nat, w: Worker) {
    FullAt(h, i, w) && i < j < |h| && h[j] == FailureReads(w) && Circuit(After(h[..j])) != R.Open
  }

  /** And at step `k` it set the state, which nobody has set since. */
  ghost predicate Opened(h: seq<Step>, i: nat, j: nat, k: nat, w: Worker) {
    && ReadAfter(h, i, j, w) && j < k < |h| && h[k] == SetOpen(w)
    && forall m :: k < m < |h| ==> !WritesState(h[m])
  }

  lemma FullSnoc(h: seq<Step>, g: seq<Step>, i: nat, w: Worker)
    requires g <= h && FullAt(g, i, w)
    ensures FullAt(h, i, w)
  {
    assert h[..i + 1] == g[..i + 1];
  }

  lemma ReadSnoc(h: seq<Step>, g: seq<Step>, i: nat, j: nat, w: Worker)
    requires g <= h && ReadAfter(g, i, j, w)
    ensures ReadAfter(h, i, j, w)
  {
    FullSnoc(h, g, i, w);
    assert h[..j] == g[..j];
  }

  /** How a worker comes to where it is. */
  lemma StepTask(s: State, e: Step, w: Worker)
    requires Enabled(s, e)
    ensures At(Apply(s, e), w, Counted) ==>
              At(s, w, Counted) || (e == Increment(w) && Apply(s, e).failures >= R.MAX_FAILURES)
    ensures At(Apply(s, e), w, SawNotOpen) ==>
              At(s, w, SawNotOpen) || (e == FailureReads(w) && At(s, w, Counted) && Circuit(s) != R.Open)
    ensures e == Increment(w) ==> !At(s, w, Counted)
    ensures e == FailureReads(w) ==> !At(s, w, SawNotOpen)
  {
    hide Circuit;
  }

  lemma {:induction false} CountedFrom(h: seq<Step>, w: Worker) returns (i: nat)
    requires Run(h) && At(After(h), w, Counted)
    ensures FullAt(h, i, w)
    decreases |h|
  {
    hide Apply;
    hide Enabled;
    hide Increments;
    var g, e := Unsnoc(h);
    hide After;
    hide Run;
    StepTask(After(g), e, w);
    assert h[|g|] == e;
    if e == Increment(w) {
      i := |g|;
      CounterIsIncrements(h);
      assert h[..i + 1] == h;
    } else {
      i := CountedFrom(g, w);
      FullSnoc(h, g, i, w);
    }
  }

  lemma {:induction false} SawFrom(h: seq<Step>, w: Worker) returns (i: nat, j: nat)
    requires Run(h) && At(After(h), w, SawNotOpen)
    ensures ReadAfter(h, i, j, w)
    decreases |h|
  {
    hide Apply;
    hide Enabled;
    hide FullAt;
    hide Circuit;
    var g, e := Unsnoc(h);
    hide After;
    hide Run;
    StepTask(After(g), e, w);
    assert h[|g|] == e;
    if e == FailureReads(w) {
      i := CountedFrom(g, w);
      j := |g|;
      FullSnoc(h, g, i, w);
      assert h[..j] == g;
    } else {
      i, j := SawFrom(g, w);
      ReadSnoc(h, g, i, j, w);
    }
  }

  /** The write at step `k` belongs to the success that read the state at step `j`. */
  ghost predicate OfSuccess(h: seq<Step>, j: nat, k: nat) {
    && j < k < |h| && (h[k].SetClosed? || h[k].Delete?) && h[j] == SuccessReads(h[k].w)
    && (h[k].SetClosed? ==> Circuit(After(h[..j])) != R.Closed)
  }

  lemma {:induction false} PrefixRun(h: seq<Step>, i: nat)
    requires Run(h) && i < |h|
    ensures Run(h[..i]) && Enabled(After(h[..i]), h[i])
    decreases |h|
  {
    var g := h[..|h| - 1];
    if i < |g| {
      assert g[..i] == h[..i];
      PrefixRun(g, i);
    }
  }

  /** Only a success writes "closed" or deletes the counter, after reading the state; it writes "closed"
      only if it found it otherwise. */
  lemma SuccessWrites(h: seq<Step>, k: nat) returns (j: nat)
    requires Run(h) && k < |h| && (h[k].SetClosed? || h[k].Delete?)
    ensures OfSuccess(h, j, k)
  {
    PrefixRun(h, k);
    hide After;
    hide Run;
    hide Circuit;
    j := SuccessFrom(h[..k], h[k].w);
    assert h[..k][..j] == h[..j];
  }

  lemma {:induction false} SuccessFrom(h: seq<Step>, w: Worker) returns (j: nat)
    requires Run(h) && (At(After(h), w, SawOpen) || At(After(h), w, Resetting) || At(After(h), w, Clearing))
    ensures j < |h| && h[j] == SuccessReads(w)
    ensures At(After(h), w, SawOpen) ==> Circuit(After(h[..j])) != R.Closed
    decreases |h|
  {
    var g, e := Unsnoc(h);
    assert h[|g|] == e;
    hide Circuit;
    if e == SuccessReads(w) {
      j := |g|;
      assert h[..j] == g;
    } else {
      j := SuccessFrom(g, w);
      assert h[..j] == g[..j];
    }
  }

  lemma {:induction false} OpenedFrom(h: seq<Step>) returns (i: nat, j: nat, k: nat, w: Worker)
    requires Run(h) && After(h).mark.Some? && After(h).mark.value.circuit == R.Open
    ensures Opened(h, i, j, k, w)
    decreases |h|
  {
    hide ReadAfter;
    var g, e := Unsnoc(h);
    hide After;
    hide Run;
    HalfOpenNeverStored(g);
    assert h[|g|] == e;
    if e.SetOpen? {
      k, w := |g|, e.w;
      i, j := SawFrom(g, w);
      ReadSnoc(h, g, i, j, w);
    } else {
      i, j, k, w := OpenedFrom(g);
      ReadSnoc(h, g, i, j, w);
    }
  }

  lemma {:induction false} MarkFromOpened(h: seq<Step>, k: nat)
    requires Run(h) && k < |h| && h[k].SetOpen? && forall m :: k < m < |h| ==> !WritesState(h[m])
    ensures After(h).mark == Some(R.Mark(R.Open, Some(After(h[..k]).now + R.COOLDOWN)))
    decreases |h|
  {
    var g, e := Unsnoc(h);
    assert h[|g|] == e && h[..k] == g[..k];
    if k == |g| {
      assert h[..k] == g;
    } else {
      MarkFromOpened(g, k);
    }
  }

  /** In every interleaving a check is refused exactly while the last write of the state is one
      that opened it less than the cooldown ago; and that write always stems from an increment
      which made a full run of failures, followed by a read that found the breaker not open. */
  lemma {:induction false} RefusedIff(h: seq<Step>)
    requires Run(h)
    ensures !R.CanExecute(View(After(h)), After(h).now) <==>
            exists i: nat, j: nat, k: nat, w :: Opened(h, i, j, k, w) && After(h).now < After(h[..k]).now + R.COOLDOWN
  {
    HalfOpenNeverStored(h);
    if !R.CanExecute(View(After(h)), After(h).now) {
      var i, j, k, w := OpenedFrom(h);
      MarkFromOpened(h, k);
    }
    if i: nat, j: nat, k: nat, w :| Opened(h, i, j, k, w) && After(h).now < After(h[..k]).now + R.COOLDOWN {
      MarkFromOpened(h, k);
    }
  }

  // ----- what does not -----

  /** A breaker that refuses has a full run of failures to show for it, as it always has when the
      operations do not interleave. */
  ghost predicate Explained(s: State) {
    Circuit(s) == R.Open ==> s.failures >= R.MAX_FAILURES
  }

  lemma ExplainedAlone(h: seq<R.Event>, now: int)
    requires R.StateAt(R.After(h), now) == R.Open && forall j :: 0 <= j < |h| ==> h[j].now <= now
    ensures R.After(h).failures >= R.MAX_FAILURES
  {
    var i := R.RefusedMeansBlocked(h, now);
    R.CounterIsStreak(h);
    StreakGrows(h, i);
  }

  lemma {:induction false} StreakGrows(h: seq<R.Event>, i: nat)
    requires i < |h| && forall j :: i < j < |h| ==> h[j].Failure?
    ensures R.Streak(h) >= R.Streak(h[..i + 1])
    decreases |h|
  {
    var g := h[..|h| - 1];
    if i + 1 == |h| {
      assert h[..i + 1] == h;
    } else {
      assert g[..i + 1] == h[..i + 1];
      StreakGrows(g, i);
    }
  }

  /** The two races: a late opening after the counter was deleted, and a late deletion after the
      breaker was opened. */
  predicate Races(s: State, e: Step) {
    || (e.SetOpen? && s.failures < R.MAX_FAILURES)
    || (e.Delete? && Circuit(s) == R.Open)
  }

  lemma StepExplainedIff(s: State, e: Step)
    requires Enabled(s, e) && NoHalfOpen(s) && Explained(s)
    ensures Explained(Apply(s, e)) <==> !Races(s, e)
  {
  }

  ghost predicate AlwaysExplained(h: seq<Step>)
    decreases |h|
  {
    Explained(After(h)) && (h == [] || AlwaysExplained(h[..|h| - 1]))
  }

  ghost predicate RaceFree(h: seq<Step>)
    decreases |h|
  {
    h == [] || (RaceFree(h[..|h| - 1]) && !Races(After(h[..|h| - 1]), h[|h| - 1]))
  }

  /** Through a run every refusal is explained exactly when neither race happens in it. */
  lemma {:induction false} ExplainedIff(h: seq<Step>)
    requires Run(h)
    ensures AlwaysExplained(h) <==> RaceFree(h)
    decreases |h|
  {
    if h == [] {
    } else {
      var g, e := h[..|h| - 1], h[|h| - 1];
      ExplainedIff(g);
      HalfOpenNeverStored(g);
      if AlwaysExplained(g) {
        assert Explained(After(g));
        StepExplainedIff(After(g), e);
      }
    }
  }

  lemma Extend(h: seq<Step>, e: Step) returns (longer: seq<Step>)
    requires Run(h) && Enabled(After(h), e)
    ensures longer == h + [e] && Run(longer) && After(longer) == Apply(After(h), e)
  {
    longer := h + [e];
    assert longer[..|h|] == h;
  }

  lemma {:induction false} SomeFailures(n: nat) returns (h: seq<Step>)
    requires n < R.MAX_FAILURES
    ensures Run(h) && After(h) == State(0, n, None, map[]) && |h| == n
    ensures forall i :: 0 <= i < |h| ==> h[i] == Increment(1)
  {
    if n == 0 {
      h := [];
    } else {
      h := SomeFailures(n - 1);
      h := Extend(h, Increment(1));
    }
  }

  lemma LateOpening() returns (h: seq<Step>)
    ensures Run(h) && After(h) == State(0, R.MAX_FAILURES, None, map[1 := SawNotOpen])
    ensures |h| == 6 && (forall i :: 0 <= i < 5 ==> h[i] == Increment(1)) && h[5] == FailureReads(1)
  {
    h := SomeFailures(R.MAX_FAILURES - 1);
    hide After;
    hide Run;
    h := Extend(h, Increment(1));
    assert After(h) == State(0, R.MAX_FAILURES, None, map[1 := Counted]);
    h := Extend(h, FailureReads(1));
  }

  /** Both happen. Here a success leaves the breaker open with no failure counted: the fifth failure
      was counted before it and opens after it. */
  lemma {:induction false} SuccessThenOpen() returns (h: seq<Step>)
    ensures Run(h) && |h| == 9 && forall i :: 0 <= i < 5 ==> h[i] == Increment(1)
    ensures h[5] == FailureReads(1) && h[6] == SuccessReads(2) && h[7] == Delete(2) && h[8] == SetOpen(1)
    ensures After(h).failures == 0 && !R.CanExecute(View(After(h)), After(h).now) && After(h).tasks == map[]
  {
    h := LateOpening();
    hide After;
    hide Run;
    h := Extend(h, SuccessReads(2));
    h := Extend(h, Delete(2));
    assert After(h) == State(0, 0, None, map[1 := SawNotOpen]);
    h := Extend(h, SetOpen(1));
  }

  lemma LateDeletion() returns (h: seq<Step>)
    ensures Run(h) && After(h) == State(0, R.MAX_FAILURES, None, map[1 := Counted, 2 := Clearing])
    ensures |h| == 6 && (forall i :: 0 <= i < 4 ==> h[i] == Increment(1))
    ensures h[4] == SuccessReads(2) && h[5] == Increment(1)
  {
    h := SomeFailures(R.MAX_FAILURES - 1);
    hide After;
    hide Run;
    h := Extend(h, SuccessReads(2));
    assert After(h) == State(0, R.MAX_FAILURES - 1, None, map[2 := Clearing]);
    h := Extend(h, Increment(1));
    assert map[2 := Clearing][1 := Counted] == map[1 := Counted, 2 := Clearing];
  }

  /** And here a success that found the breaker closed deletes the counter after it was opened. */
  lemma {:induction false} OpenThenDelete() returns (h: seq<Step>)
    ensures Run(h) && |h| == 9 && forall i :: 0 <= i < 4 ==> h[i] == Increment(1)
    ensures h[4] == SuccessReads(2) && h[5] == Increment(1)
    ensures h[6] == FailureReads(1) && h[7] == SetOpen(1) && h[8] == Delete(2)
    ensures After(h).failures == 0 && !R.CanExecute(View(After(h)), After(h).now) && After(h).tasks == map[]
  {
    h := LateDeletion();
    hide After;
    hide Run;
    h := Extend(h, FailureReads(1));
    h := Extend(h, SetOpen(1));
    assert After(h).tasks == map[2 := Clearing];
    h := Extend(h, Delete(2));
  }
}
