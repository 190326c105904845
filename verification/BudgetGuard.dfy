/** The gateway's check-then-commit budget guard. Nothing is reserved at the check, so the
    question is how far concurrent calls can push recorded spend past a cap. Every Redis
    command is its own step; costs are exact. */
module BudgetGuard {

  import opened Options

  type CallId = nat

  datatype Key = Daily(user: string, day: nat) | Session(id: string)

  const DAILY_CAP := 5.0
  const SESSION_CAP := 1.0

  function Cap(k: Key): real {
    if k.Daily? then DAILY_CAP else SESSION_CAP
  }

  datatype Phase = DailyRead | Admitted | DailyCommitted(cost: real)

  datatype Call = Call(user: string, session: Option<string>, estimate: real, phase: Phase)

  datatype State = State(today: nat, spend: map<Key, real>, calls: map<CallId, Call>)

  datatype Step =
    | Begin(c: CallId, user: string, session: Option<string>, estimate: real)  // reads the daily counter
    | ReadSession(c: CallId)                                                    // reads the session counter
    | GiveUp(c: CallId)                                                         // failed, cancelled or not recorded
    | CommitDaily(c: CallId, cost: real)
    | CommitSession(c: CallId)
    | Expire(k: Key)
    | NextDay

  const INITIAL := State(0, map[], map[])

  function Spent(spend: map<Key, real>, k: Key): real {
    if k in spend then spend[k] else 0.0
  }

  function Add(spend: map<Key, real>, k: Key, cost: real): map<Key, real> {
    spend[k := Spent(spend, k) + cost]
  }

  /** The guard's comparison. */
  predicate Within(spend: map<Key, real>, k: Key, estimate: real) {
    !(Spent(spend, k) + estimate > Cap(k))
  }

  /** An absent or empty session id has no counter of its own. */
  predicate HasCounter(session: Option<string>) {
    session.Some? && session.value != ""
  }

  predicate Enabled(s: State, e: Step) {
    match e
    case Begin(c, _, _, estimate) => c !in s.calls && estimate >= 0.0
    case ReadSession(c) => c in s.calls && s.calls[c].phase == DailyRead
    case GiveUp(c) => c in s.calls
    case CommitDaily(c, cost) => c in s.calls && s.calls[c].phase == Admitted && cost > 0.0
    case CommitSession(c) => c in s.calls && s.calls[c].phase.DailyCommitted? && s.calls[c].session.Some?
    case Expire(_) => true
    case NextDay => true
  }

  function Without(calls: map<CallId, Call>, c: CallId): map<CallId, Call> {
    calls - {c}
  }

  function Apply(s: State, e: Step): State {
    if !Enabled(s, e) then s else
    match e
    case Begin(c, user, session, estimate) =>
      if Within(s.spend, Daily(user, s.today), estimate)
      then s.(calls := s.calls[c := Call(user, if HasCounter(session) then session else None, estimate, DailyRead)])
      else s
    case ReadSession(c) =>
      var call := s.calls[c];
      if call.session.None? || Within(s.spend, Session(call.session.value), call.estimate)
      then s.(calls := s.calls[c := call.(phase := Admitted)])
      else s.(calls := Without(s.calls, c))
    case GiveUp(c) => s.(calls := Without(s.calls, c))
    case CommitDaily(c, cost) =>
      var call := s.calls[c];
      s.(spend := Add(s.spend, Daily(call.user, s.today), cost),
         calls := if call.session.Some? then s.calls[c := call.(phase := DailyCommitted(cost))]
                  else Without(s.calls, c))
    case CommitSession(c) =>
      var call := s.calls[c];
      s.(spend := Add(s.spend, Session(call.session.value), call.phase.cost), calls := Without(s.calls, c))
    case Expire(k) => s.(spend := s.spend - {k})
    case NextDay => s.(today := s.today + 1)
  }

  // ----- concurrent calls -----

  /** The call has passed its read of counter `k` and may still add to it. */
  predicate MayAdd(call: Call, k: Key) {
    match k
    case Daily(user, _) => call.user == user && !call.phase.DailyCommitted?
    case Session(id) => call.session == Some(id) && call.phase != DailyRead
  }

  function InFlight(s: State, k: Key): set<CallId> {
    set c | c in s.calls && MayAdd(s.calls[c], k)
  }

  /** What `n` calls of cost `x` come to. */
  function Times(n: nat, x: real): real {
    n as real * x
  }

  /** At most `n` calls at once that may still add to a counter, each estimated at `low` or more
      and costing `high` or less. */
  datatype Load = Load(n: nat, low: real, high: real) {
    ghost predicate Sane(k: Key) {
      0.0 <= low <= Cap(k) && 0.0 <= high
    }

    function Bound(k: Key): real {
      Cap(k) - low + Times(n, high)
    }
  }

  /** A call of this user and session adds to counter `k`, if it gets that far. */
  predicate Concerns(user: string, session: Option<string>, k: Key) {
    match k
    case Daily(u, _) => user == u
    case Session(id) => session == Some(id)
  }

  /** The load on counter `k` alone; calls that do not concern it are free. */
  ghost predicate Obeys(load: Load, s: State, e: Step, k: Key) {
    && (e.Begin? && Concerns(e.user, e.session, k) ==> e.estimate >= load.low)
    && (e.CommitDaily? && e.c in s.calls && Concerns(s.calls[e.c].user, s.calls[e.c].session, k) ==>
          e.cost <= load.high)
    && |InFlight(Apply(s, e), k)| <= load.n
  }

  function Exposure(load: Load, s: State, k: Key): real {
    Spent(s.spend, k) + Times(|InFlight(s, k)|, load.high)
  }

  /** Commits still go to this counter. */
  predicate Current(s: State, k: Key) {
    k.Daily? ==> k.day == s.today
  }

  /** Spend plus the most the calls in flight could still add stays within the bound. A day that
      has not begun has no spend, and a day that is over takes no more. */
  ghost predicate Bounded(load: Load, s: State, k: Key) {
    && 0.0 <= Spent(s.spend, k) <= load.Bound(k)
    && (k.Daily? && k.day > s.today ==> Spent(s.spend, k) == 0.0)
    && (Current(s, k) ==> Exposure(load, s, k) <= load.Bound(k))
  }

  ghost predicate CallsObey(load: Load, s: State, k: Key) {
    forall c :: c in s.calls && Concerns(s.calls[c].user, s.calls[c].session, k) ==> CallObeys(load, s.calls[c])
  }

  predicate CallObeys(load: Load, call: Call) {
    call.estimate >= load.low && (call.phase.DailyCommitted? ==> 0.0 < call.phase.cost <= load.high)
  }

  lemma Scale(i: nat, j: nat, x: real)
    requires i <= j && 0.0 <= x
    ensures 0.0 <= Times(i, x) <= Times(j, x)
  {
  }

  lemma OneMore(i: nat, x: real)
    ensures Times(0, x) == 0.0 && Times(i + 1, x) == Times(i, x) + x
  {
  }

  lemma {:induction false} Subset(a: set<CallId>, b: set<CallId>)
    requires a <= b
    ensures |a| <= |b|
  {
    if a == {} {
    } else {
      var x :| x in a;
      Subset(a - {x}, b - {x});
    }
  }

  /** A read that passes leaves room for every call in flight. */
  lemma PassedRead(load: Load, s: State, t: State, k: Key, estimate: real)
    requires load.Sane(k) && |InFlight(t, k)| <= load.n && t.spend == s.spend
    requires estimate >= load.low && Within(s.spend, k, estimate)
    ensures Exposure(load, t, k) <= load.Bound(k)
  {
    hide Times;
    Scale(|InFlight(t, k)|, load.n, load.high);
  }

  lemma FewerInFlight(load: Load, s: State, t: State, k: Key)
    requires load.Sane(k) && InFlight(t, k) <= InFlight(s, k) && Spent(t.spend, k) <= Spent(s.spend, k)
    ensures Exposure(load, t, k) <= Exposure(load, s, k)
  {
    hide Times;
    Subset(InFlight(t, k), InFlight(s, k));
    Scale(|InFlight(t, k)|, |InFlight(s, k)|, load.high);
  }

  /** A commit trades one call in flight for at most its cost. */
  lemma CommitExposure(load: Load, s: State, t: State, k: Key, c: CallId, cost: real)
    requires load.Sane(k) && cost <= load.high
    requires c in InFlight(s, k) && InFlight(t, k) == InFlight(s, k) - {c}
    requires Spent(t.spend, k) == Spent(s.spend, k) + cost
    ensures Exposure(load, t, k) <= Exposure(load, s, k)
  {
    assert |InFlight(t, k)| == |InFlight(s, k)| - 1;
    OneMore(|InFlight(t, k)|, load.high);
    hide Times;
  }

  /** Step `e` commits to counter `k`. */
  predicate CommitsTo(s: State, e: Step, k: Key) {
    || (e.CommitDaily? && e.c in s.calls && k == Daily(s.calls[e.c].user, s.today))
    || (e.CommitSession? && e.c in s.calls && s.calls[e.c].session.Some? && k == Session(s.calls[e.c].session.value))
  }

  function CostOf(s: State, e: Step): real {
    if e.CommitDaily? then e.cost
    else if e.CommitSession? && e.c in s.calls && s.calls[e.c].phase.DailyCommitted? then s.calls[e.c].phase.cost
    else 0.0
  }

  /** Step `e` is a read of counter `k` that passes. */
  predicate Joins(s: State, e: Step, k: Key) {
    || (e.Begin? && k == Daily(e.user, s.today) && Within(s.spend, k, e.estimate))
    || (e.ReadSession? && e.c in s.calls && s.calls[e.c].session.Some? && k == Session(s.calls[e.c].session.value)
        && Within(s.spend, k, s.calls[e.c].estimate))
  }

  lemma StepSpend(s: State, e: Step, k: Key)
    requires Enabled(s, e) && !e.Expire?
    ensures Spent(Apply(s, e).spend, k) == Spent(s.spend, k) + if CommitsTo(s, e, k) then CostOf(s, e) else 0.0
  {
    hide Within;
  }

  /** An expiry empties one counter, a call given up adds to none any more, and midnight moves the day
      on and leaves what was spent. */
  lemma OtherSteps(s: State, k: Key, c: CallId)
    ensures var t := Apply(s, Expire(k));
            k !in t.spend && t.calls == s.calls
            && forall j :: j != k ==> (j in t.spend <==> j in s.spend) && (j in s.spend ==> t.spend[j] == s.spend[j])
    ensures c in s.calls ==>
              var t := Apply(s, GiveUp(c));
              c !in t.calls && t.spend == s.spend && forall d :: d != c && d in s.calls ==> d in t.calls
    ensures Apply(s, NextDay) == State(s.today + 1, s.spend, s.calls)
  {
  }

  lemma StepInFlight(s: State, e: Step, k: Key)
    requires Enabled(s, e) && Current(s, k) && !e.NextDay?
    ensures if CommitsTo(s, e, k) then e.c in InFlight(s, k) && InFlight(Apply(s, e), k) == InFlight(s, k) - {e.c}
            else Joins(s, e, k) || InFlight(Apply(s, e), k) <= InFlight(s, k)
  {
    hide Within;
    hide Add;
  }

  lemma StepExposure(load: Load, s: State, e: Step, k: Key)
    requires load.Sane(k) && Enabled(s, e) && Obeys(load, s, e, k) && CallsObey(load, s, k)
    requires Current(s, k) && Exposure(load, s, k) <= load.Bound(k) && !e.NextDay? && !e.Expire?
    ensures Exposure(load, Apply(s, e), k) <= load.Bound(k)
  {
    StepSpend(s, e, k);
    StepInFlight(s, e, k);
    hide Times;
    hide Spent;
    hide Within;
    hide InFlight;
    hide Exposure;
    hide Load.Bound;
    var t := Apply(s, e);
    if CommitsTo(s, e, k) {
      assert Concerns(s.calls[e.c].user, s.calls[e.c].session, k);
      CommitExposure(load, s, t, k, e.c, CostOf(s, e));
    } else if Joins(s, e, k) {
      PassedRead(load, s, t, k, if e.Begin? then e.estimate else s.calls[e.c].estimate);
    } else {
      FewerInFlight(load, s, t, k);
    }
  }

  lemma StepBounded(load: Load, s: State, e: Step, k: Key)
    requires load.Sane(k) && Enabled(s, e) && Obeys(load, s, e, k) && CallsObey(load, s, k) && Bounded(load, s, k)
    ensures Bounded(load, Apply(s, e), k)
  {
    var t := Apply(s, e);
    Scale(0, load.n, load.high);
    Scale(0, |InFlight(t, k)|, load.high);
    Scale(|InFlight(t, k)|, load.n, load.high);
    hide Times;
    if e.NextDay? || e.Expire? {
      assert InFlight(t, k) == InFlight(s, k);
    } else {
      StepSpend(s, e, k);
      if Current(s, k) {
        StepExposure(load, s, e, k);
      }
    }
  }

  lemma StepCallsObey(load: Load, s: State, e: Step, k: Key)
    requires Enabled(s, e) && Obeys(load, s, e, k) && CallsObey(load, s, k)
    ensures CallsObey(load, Apply(s, e), k)
  {
    hide Within;
    hide Add;
    var t := Apply(s, e);
    forall c | c in t.calls && Concerns(t.calls[c].user, t.calls[c].session, k)
      ensures CallObeys(load, t.calls[c])
    {
      if c in s.calls {
        assert Concerns(s.calls[c].user, s.calls[c].session, k);
      }
    }
  }

  function After(h: seq<Step>): State
    decreases |h|
  {
    if h == [] then INITIAL else Apply(After(h[..|h| - 1]), h[|h| - 1])
  }

  /** A run of any calls whatever, of which those that concern `k` obey the load. */
  ghost predicate Run(load: Load, h: seq<Step>, k: Key)
    decreases |h|
  {
    h == [] ||
    (var s := After(h[..|h| - 1]);
     Run(load, h[..|h| - 1], k) && Enabled(s, h[|h| - 1]) && Obeys(load, s, h[|h| - 1], k))
  }

  lemma {:induction false} RunInvariant(load: Load, h: seq<Step>, k: Key)
    requires load.Sane(k) && Run(load, h, k)
    ensures CallsObey(load, After(h), k) && Bounded(load, After(h), k)
    decreases |h|
  {
    hide Times;
    if h == [] {
      Scale(0, load.n, load.high);
      OneMore(0, load.high);
      assert InFlight(INITIAL, k) == {};
    } else {
      hide Bounded;
      hide CallsObey;
      RunInvariant(load, h[..|h| - 1], k);
      StepCallsObey(load, After(h[..|h| - 1]), h[|h| - 1], k);
      StepBounded(load, After(h[..|h| - 1]), h[|h| - 1], k);
    }
  }

  /** In any interleaving of reads, commits and failures, across midnights and key expiries, no
      counter passes its cap, less the least estimate, plus one call's cost per call in flight on it,
      whatever the calls on other counters do. */
  lemma {:induction false} SpendBounded(load: Load, h: seq<Step>, k: Key)
    requires load.Sane(k) && Run(load, h, k)
    ensures Spent(After(h).spend, k) <= Cap(k) - load.low + Times(load.n, load.high)
    ensures k in After(h).spend ==>
              After(h).spend[k] <= (if k.Daily? then 5.0 else 1.0) - load.low + load.n as real * load.high
  {
    TimesIs(load.n, load.high);
    hide Times;
    RunInvariant(load, h, k);
    hide After;
    hide Run;
  }

  lemma TimesIs(n: nat, x: real)
    ensures Times(n, x) == n as real * x
  {
  }

  // ----- the bound is attained -----

  lemma {:induction false} Extend(load: Load, h: seq<Step>, e: Step, k: Key) returns (longer: seq<Step>)
    requires Run(load, h, k) && Enabled(After(h), e) && Obeys(load, After(h), e, k)
    ensures Run(load, longer, k) && After(longer) == Apply(After(h), e)
  {
    longer := h + [e];
    assert longer[..|h|] == h;
  }

  function UserOf(k: Key): string {
    if k.Daily? then k.user else ""
  }

  function SessionOf(k: Key): Option<string> {
    if k.Session? then Some(k.id) else None
  }

  /** Calls can be made that add to this counter. */
  predicate Usable(k: Key) {
    k.Session? ==> HasCounter(Some(k.id))
  }

  /** It is `k`'s day, `j` calls at the least estimate have been admitted and nothing else is
      open; the daily counter of their user is no fuller than `k`. */
  ghost predicate OnlyPending(load: Load, s: State, j: nat, k: Key) {
    && Current(s, k)
    && s.calls.Keys == Below(j)
    && (forall c :: c in s.calls ==> s.calls[c] == Call(UserOf(k), SessionOf(k), load.low, Admitted))
    && Spent(s.spend, Daily(UserOf(k), s.today)) <= Spent(s.spend, k)
  }

  function Below(j: nat): (ids: set<CallId>)
    ensures |ids| == j && forall i: nat :: i in ids <==> i < j
  {
    if j == 0 then {} else Below(j - 1) + {j - 1}
  }

  lemma FewOpen(s: State, k: Key, j: nat)
    requires s.calls.Keys == Below(j)
    ensures |InFlight(s, k)| <= j
  {
    Subset(InFlight(s, k), s.calls.Keys);
  }

  lemma {:induction false} Launch(load: Load, h: seq<Step>, j: nat, k: Key) returns (longer: seq<Step>)
    requires load.Sane(k) && Usable(k) && Run(load, h, k) && OnlyPending(load, After(h), j, k) && j < load.n
    requires Within(After(h).spend, k, load.low)
    ensures Run(load, longer, k) && OnlyPending(load, After(longer), j + 1, k) && After(longer).spend == After(h).spend
  {
    hide After;
    hide Run;
    hide Below;
    hide InFlight;
    var begin := Begin(j, UserOf(k), SessionOf(k), load.low);
    var t := Apply(After(h), begin);
    assert t.calls.Keys == Below(j + 1);
    FewOpen(t, k, j + 1);
    longer := Extend(load, h, begin, k);
    t := Apply(After(longer), ReadSession(j));
    assert t.calls.Keys == Below(j + 1);
    FewOpen(t, k, j + 1);
    longer := Extend(load, longer, ReadSession(j), k);
  }

  lemma {:induction false} Land(load: Load, h: seq<Step>, j: nat, k: Key, cost: real) returns (longer: seq<Step>)
    requires load.Sane(k) && Run(load, h, k) && OnlyPending(load, After(h), j, k) && 0 < j <= load.n
    requires 0.0 < cost <= load.high
    ensures Run(load, longer, k) && OnlyPending(load, After(longer), j - 1, k)
    ensures Spent(After(longer).spend, k) == Spent(After(h).spend, k) + cost
  {
    hide After;
    hide Run;
    hide Below;
    hide InFlight;
    var commit := CommitDaily(j - 1, cost);
    var t := Apply(After(h), commit);
    if k.Session? {
      assert t.calls.Keys == Below(j);
      FewOpen(t, k, j);
      longer := Extend(load, h, commit, k);
      t := Apply(After(longer), CommitSession(j - 1));
      assert t.calls.Keys == Below(j - 1);
      FewOpen(t, k, j - 1);
      longer := Extend(load, longer, CommitSession(j - 1), k);
    } else {
      assert t.calls.Keys == Below(j - 1);
      FewOpen(t, k, j - 1);
      longer := Extend(load, h, commit, k);
    }
  }

  lemma {:induction false} LaunchAll(load: Load, h: seq<Step>, j: nat, k: Key) returns (longer: seq<Step>)
    requires load.Sane(k) && Usable(k) && Run(load, h, k) && OnlyPending(load, After(h), 0, k) && j <= load.n
    requires Within(After(h).spend, k, load.low)
    ensures Run(load, longer, k) && OnlyPending(load, After(longer), j, k) && After(longer).spend == After(h).spend
  {
    hide After;
    hide Run;
    hide OnlyPending;
    longer := h;
    if j == 0 {
    } else {
      longer := LaunchAll(load, h, j - 1, k);
      longer := Launch(load, longer, j - 1, k);
    }
  }

  lemma {:induction false} LandAll(load: Load, h: seq<Step>, j: nat, k: Key) returns (longer: seq<Step>)
    requires load.Sane(k) && Run(load, h, k) && OnlyPending(load, After(h), j, k) && j <= load.n && 0.0 < load.high
    ensures Run(load, longer, k) && OnlyPending(load, After(longer), 0, k)
    ensures Spent(After(longer).spend, k) == Spent(After(h).spend, k) + Times(j, load.high)
    decreases j
  {
    hide After;
    hide Run;
    hide Times;
    hide OnlyPending;
    longer := h;
    OneMore(0, load.high);
    if j == 0 {
    } else {
      OneMore(j - 1, load.high);
      longer := Land(load, h, j, k, load.high);
      longer := LandAll(load, longer, j - 1, k);
    }
  }

  /** Wait for `k`'s day. */
  lemma {:induction false} DayComes(load: Load, day: nat, k: Key) returns (h: seq<Step>)
    ensures Run(load, h, k) && After(h) == State(day, map[], map[])
  {
    hide After;
    hide Run;
    if day == 0 {
      EmptyRun(load, k);
      h := [];
    } else {
      h := DayComes(load, day - 1, k);
      assert InFlight(State(day, map[], map[]), k) == {};
      h := Extend(load, h, NextDay, k);
    }
  }

  lemma EmptyRun(load: Load, k: Key)
    ensures Run(load, [], k) && After([]) == INITIAL
  {
  }

  lemma Start(load: Load, k: Key) returns (h: seq<Step>)
    ensures Run(load, h, k) && OnlyPending(load, After(h), 0, k) && Spent(After(h).spend, k) == 0.0
  {
    h := DayComes(load, if k.Daily? then k.day else 0, k);
    hide After;
    hide Run;
  }

  lemma OneMoreCall(load: Load, h: seq<Step>, k: Key, cost: real) returns (longer: seq<Step>)
    requires load.Sane(k) && Usable(k) && Run(load, h, k) && OnlyPending(load, After(h), 0, k) && load.n > 0
    requires 0.0 < cost <= load.high && Within(After(h).spend, k, load.low)
    ensures Run(load, longer, k) && OnlyPending(load, After(longer), 0, k)
    ensures Spent(After(longer).spend, k) == Spent(After(h).spend, k) + cost
  {
    hide After;
    hide Run;
    hide OnlyPending;
    longer := Launch(load, h, 0, k);
    longer := Land(load, longer, 1, k, cost);
  }

  /** `m` calls of the same cost, one after the other, as long as the guard lets them through. */
  lemma {:induction false} OneByOne(load: Load, k: Key, m: nat, cost: real) returns (h: seq<Step>)
    requires load.Sane(k) && Usable(k) && load.n > 0 && 0.0 < cost <= load.high && Times(m, cost) + load.low <= Cap(k)
    ensures Run(load, h, k) && OnlyPending(load, After(h), 0, k)
    ensures Spent(After(h).spend, k) == Times(m, cost)
  {
    hide After;
    hide Run;
    hide Times;
    hide OnlyPending;
    hide Usable;
    if m == 0 {
      OneMore(0, cost);
      h := Start(load, k);
    } else {
      OneMore(m - 1, cost);
      h := OneByOne(load, k, m - 1, cost);
      h := OneMoreCall(load, h, k, cost);
    }
  }

  /** Any room is a whole number of equal costs, none above `high`. */
  lemma Divide(room: real, high: real) returns (m: nat, cost: real)
    requires 0.0 < room && 0.0 < high
    ensures 0.0 < cost <= high && Times(m, cost) == room
  {
    var q := room / high;
    assert q > 0.0 && q * high == room;
    m := q.Floor + 1;
    cost := room / m as real;
    assert q < m as real;
    assert cost * m as real == q * high;
    Quotient(cost, m as real, q, high);
  }

  lemma Quotient(x: real, m: real, q: real, y: real)
    requires 0.0 < q < m && 0.0 < y && x * m == q * y
    ensures 0.0 < x <= y
  {
    assert q * y > 0.0 && (m - q) * y > 0.0;
    assert (y - x) * m == (m - q) * y;
    Sign(x, m);
    Sign(y - x, m);
  }

  lemma Sign(z: real, m: real)
    requires 0.0 < m && 0.0 < z * m
    ensures 0.0 < z
  {
  }

  /** Calls one by one fill the counter until only the least estimate is left. */
  lemma FillUp(load: Load, k: Key) returns (h: seq<Step>)
    requires load.Sane(k) && Usable(k) && load.n > 0 && 0.0 < load.high
    ensures Run(load, h, k) && OnlyPending(load, After(h), 0, k)
    ensures Spent(After(h).spend, k) == Cap(k) - load.low
  {
    hide After;
    hide Run;
    hide Times;
    hide OnlyPending;
    hide Usable;
    if load.low == Cap(k) {
      h := Start(load, k);
    } else {
      var m, cost := Divide(Cap(k) - load.low, load.high);
      h := OneByOne(load, k, m, cost);
    }
  }

  /** Nothing better can be promised: for every counter that can be used and every load, some run
      spends exactly the bound, with calls that each passed the guard. */
  lemma {:induction false} BoundAttained(load: Load, k: Key) returns (h: seq<Step>)
    requires load.Sane(k) && Usable(k) && load.n > 0 && 0.0 < load.high
    ensures Run(load, h, k) && Spent(After(h).spend, k) == load.Bound(k)
  {
    hide After;
    hide Run;
    hide Times;
    hide OnlyPending;
    hide Usable;
    h := FillUp(load, k);
    h := LaunchAll(load, h, load.n, k);
    h := LandAll(load, h, load.n, k);
  }

  /** So every run respects the cap exactly when the calls in flight at once cannot together cost
      more than the least estimate. */
  lemma {:induction false} CapRespectedIff(load: Load, k: Key)
    requires load.Sane(k) && Usable(k)
    ensures (forall h :: Run(load, h, k) ==> Spent(After(h).spend, k) <= Cap(k)) <==>
            Times(load.n, load.high) <= load.low
  {
    if Times(load.n, load.high) <= load.low {
      forall h | Run(load, h, k) ensures Spent(After(h).spend, k) <= Cap(k) {
        SpendBounded(load, h, k);
      }
    } else {
      OneMore(0, load.high);
      assert load.high > 0.0;
      var h := BoundAttained(load, k);
    }
  }

  // ----- one call at a time -----

  /** No call starts while another is open, and no call costs more than its estimate. */
  predicate Serial(s: State, e: Step) {
    && (e.Begin? ==> s.calls == map[])
    && (e.CommitDaily? && e.c in s.calls ==> e.cost <= s.calls[e.c].estimate)
  }

  ghost predicate SerialRun(h: seq<Step>)
    decreases |h|
  {
    h == [] ||
    (var s := After(h[..|h| - 1]);
     SerialRun(h[..|h| - 1]) && Enabled(s, h[|h| - 1]) && Serial(s, h[|h| - 1]))
  }

  ghost predicate Reserved(s: State, call: Call) {
    && 0.0 <= call.estimate
    && (call.phase.DailyCommitted? ==> 0.0 <= call.phase.cost <= call.estimate)
    && (!call.phase.DailyCommitted? ==> Within(s.spend, Daily(call.user, s.today), call.estimate))
    && (call.session.Some? && call.phase != DailyRead ==> Within(s.spend, Session(call.session.value), call.estimate))
  }

  ghost predicate SerialInvariant(s: State) {
    && (forall k :: 0.0 <= Spent(s.spend, k) <= Cap(k))
    && (forall k: Key :: k.Daily? && k.day > s.today ==> Spent(s.spend, k) == 0.0)
    && (forall c, d :: c in s.calls && d in s.calls ==> c == d)
    && (forall c :: c in s.calls ==> Reserved(s, s.calls[c]))
  }

  /** One counter after a serial step. */
  lemma SerialCounter(s: State, e: Step, k: Key)
    requires SerialInvariant(s) && Enabled(s, e) && Serial(s, e)
    ensures 0.0 <= Spent(Apply(s, e).spend, k) <= Cap(k)
    ensures k.Daily? && k.day > Apply(s, e).today ==> Spent(Apply(s, e).spend, k) == 0.0
  {
    if e.Expire? {
      assert Spent(Apply(s, e).spend, k) == 0.0 || Spent(Apply(s, e).spend, k) == Spent(s.spend, k);
    } else {
      StepSpend(s, e, k);
      if CommitsTo(s, e, k) {
        assert Reserved(s, s.calls[e.c]);
      }
    }
  }

  /** The one open call after a serial step still fits under both its caps. */
  lemma SerialCall(s: State, e: Step, c: CallId)
    requires SerialInvariant(s) && Enabled(s, e) && Serial(s, e) && c in Apply(s, e).calls
    ensures Reserved(Apply(s, e), Apply(s, e).calls[c])
  {
    var t := Apply(s, e);
    var call := t.calls[c];
    SerialCounter(s, e, Daily(call.user, t.today));
    if e.Begin? && c == e.c {
      assert t.spend == s.spend;
    } else {
      assert Reserved(s, s.calls[c]);
      if e.Expire? {
        assert Spent(t.spend, Daily(call.user, t.today)) <= Spent(s.spend, Daily(call.user, s.today));
        assert call.session.Some? ==>
               Spent(t.spend, Session(call.session.value)) <= Spent(s.spend, Session(call.session.value));
      } else if e.NextDay? {
        assert Spent(s.spend, Daily(call.user, t.today)) == 0.0;
      } else {
        StepSpend(s, e, Daily(call.user, t.today));
        if call.session.Some? {
          StepSpend(s, e, Session(call.session.value));
        }
      }
    }
  }

  lemma SerialAlone(s: State, e: Step)
    requires SerialInvariant(s) && Enabled(s, e) && Serial(s, e)
    ensures forall c, d :: c in Apply(s, e).calls && d in Apply(s, e).calls ==> c == d
  {
  }

  lemma StepSerial(s: State, e: Step)
    requires SerialInvariant(s) && Enabled(s, e) && Serial(s, e)
    ensures SerialInvariant(Apply(s, e))
  {
    SerialAlone(s, e);
    forall k {
      SerialCounter(s, e, k);
    }
    forall c | c in Apply(s, e).calls {
      SerialCall(s, e, c);
    }
    hide Apply;
    hide Spent;
    hide Reserved;
  }

  /** Run one at a time, with no call costing more than its estimate, spend never passes a cap. */
  lemma {:induction false} SerialSpendWithinCap(h: seq<Step>)
    requires SerialRun(h)
    ensures SerialInvariant(After(h))
    ensures forall k :: Spent(After(h).spend, k) <= Cap(k)
    decreases |h|
  {
    if h == [] {
    } else {
      SerialSpendWithinCap(h[..|h| - 1]);
      StepSerial(After(h[..|h| - 1]), h[|h| - 1]);
    }
  }

  // ----- the guard over the mutable counters -----

  datatype BudgetCheck = Pass | DailyExceeded | SessionExceeded

  /** The guard's whole check. */
  predicate RoomFor(spend: map<Key, real>, user: string, day: nat, session: Option<string>, estimate: real) {
    && Within(spend, Daily(user, day), estimate)
    && (HasCounter(session) ==> Within(spend, Session(session.value), estimate))
  }

  function Committed(spend: map<Key, real>, user: string, day: nat, session: Option<string>, cost: real)
    : map<Key, real>
  {
    var daily := Add(spend, Daily(user, day), cost);
    if HasCounter(session) then Add(daily, Session(session.value), cost) else daily
  }

  /** A commit adds its cost to the user's counter of the day and to the session's, if there is a
      session with a name, and to nothing else. */
  lemma CommittedAdds(spend: map<Key, real>, user: string, day: nat, session: Option<string>, cost: real, k: Key)
    ensures var t := Committed(spend, user, day, session, cost);
            (if k in t then t[k] else 0.0) ==
            (if k in spend then spend[k] else 0.0)
            + if k == Daily(user, day) || (session.Some? && session.value != "" && k == Session(session.value))
              then cost else 0.0
  {
  }

  class Guard {
    var today: nat
    var spend: map<Key, real>

    constructor ()
      ensures today == 0 && spend == map[]
    {
      today, spend := 0, map[];
    }

    /** Despite its name it changes nothing: two callers can both be granted the same room. */
    method CheckAndReserve(user: string, session: Option<string>, estimate: real) returns (v: BudgetCheck)
      ensures v == DailyExceeded <==> !Within(spend, Daily(user, today), estimate)
      ensures v == Pass <==> RoomFor(spend, user, today, session, estimate)
      ensures var daily := if Daily(user, today) in spend then spend[Daily(user, today)] else 0.0;
              var named := session.Some? && session.value != "";
              var own := if named && Session(session.value) in spend then spend[Session(session.value)] else 0.0;
              v == if daily + estimate > 5.0 then DailyExceeded
                   else if named && own + estimate > 1.0 then SessionExceeded
                   else Pass
    {
      if Spent(spend, Daily(user, today)) + estimate > DAILY_CAP {
        return DailyExceeded;
      }
      if session.Some? && session.value != "" {
        if Spent(spend, Session(session.value)) + estimate > SESSION_CAP {
          return SessionExceeded;
        }
      }
      v := Pass;
    }

    method CommitSpend(user: string, session: Option<string>, cost: real)
      modifies this`spend
      ensures spend == Committed(old(spend), user, today, session, cost)
    {
      var key := Daily(user, today);
      spend := spend[key := Spent(spend, key) + cost];
      if session.Some? && session.value != "" {
        var sessionKey := Session(session.value);
        spend := spend[sessionKey := Spent(spend, sessionKey) + cost];
      }
    }
  }

  // ----- the guard is the two ends of a call -----

  /** When nothing comes between its two reads, a call is admitted exactly when the guard passes it. */
  lemma CheckIsTwoReads(s: State, c: CallId, user: string, session: Option<string>, estimate: real)
    requires Enabled(s, Begin(c, user, session, estimate))
    ensures var t := Apply(Apply(s, Begin(c, user, session, estimate)), ReadSession(c));
            && t.spend == s.spend
            && (c in t.calls <==> RoomFor(s.spend, user, s.today, session, estimate))
            && (c in t.calls ==> t.calls[c].phase == Admitted)
  {
  }

  /** When nothing comes between its two commits, a call leaves what the guard's commit leaves. */
  lemma CommitIsTwoCommits(s: State, c: CallId, cost: real)
    requires Enabled(s, CommitDaily(c, cost)) && (s.calls[c].session.Some? ==> HasCounter(s.calls[c].session))
    ensures var t := Apply(Apply(s, CommitDaily(c, cost)), CommitSession(c));
            t.spend == Committed(s.spend, s.calls[c].user, s.today, s.calls[c].session, cost) && c !in t.calls
  {
  }

  /** Which holds of every call at every point. */
  lemma {:induction false} SessionsHaveCounters(h: seq<Step>, c: CallId)
    requires c in After(h).calls
    ensures After(h).calls[c].session.Some? ==> HasCounter(After(h).calls[c].session)
    decreases |h|
  {
    if h != [] && c in After(h[..|h| - 1]).calls {
      SessionsHaveCounters(h[..|h| - 1], c);
    }
  }
}
