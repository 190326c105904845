/** Candidate selection and the non-streaming fallback loop of the AI gateway. */
module GatewayRouter {
  import opened Options
  import opened GatewayResilience
  import opened BudgetGuard

  // ----- the registry -----

  datatype Capability = Streaming | StructuredOutput | Vision | Embeddings | RealtimeAudio | IsLocal | IsFreeTier

  datatype Provider = Provider(name: string, has: set<Capability>, maxContextTokens: int)

  datatype Config = Config(provider: string, model: string, costIn: real, costOut: real)

  datatype Candidate = Candidate(provider: Provider, config: Config)

  /** One field of the required capabilities. */
  datatype Requirement = Flag(c: Capability, wanted: bool) | ContextTokens(n: int)

  predicate MeetsOne(p: Provider, q: Requirement) {
    match q
    case Flag(c, wanted) => wanted ==> c in p.has
    case ContextTokens(n) => p.maxContextTokens >= n
  }

  predicate Qualifies(c: Config, providers: map<string, Provider>, required: seq<Requirement>, localOnly: bool) {
    && c.provider in providers
    && (localOnly ==> IsLocal in providers[c.provider].has)
    && forall q :: q in required ==> MeetsOne(providers[c.provider], q)
  }

  /** The qualifying configurations, in registry order. */
  ghost function Qualifying(configs: seq<Config>, providers: map<string, Provider>, required: seq<Requirement>,
          localOnly: bool): seq<Candidate>
    decreases |configs|
  {
    if configs == [] then []
    else
      var c := configs[|configs| - 1];
      var before := Qualifying(configs[..|configs| - 1], providers, required, localOnly);
      if Qualifies(c, providers, required, localOnly) then before + [Candidate(providers[c.provider], c)] else before
  }

  method FilterCandidates(configs: seq<Config>, providers: map<string, Provider>, required: seq<Requirement>,
          localOnly: bool)
    returns (valid: seq<Candidate>)
    ensures valid == Qualifying(configs, providers, required, localOnly)
  {
    valid := [];
    for i := 0 to |configs|
      invariant valid == Qualifying(configs[..i], providers, required, localOnly)
    {
      var config := configs[i];
      assert configs[..i + 1][..i] == configs[..i];
      if config.provider !in providers {
        continue;
      }
      var provider := providers[config.provider];
      if localOnly && IsLocal !in provider.has {
        continue;
      }
      var meetsRequirements := true;
      for j := 0 to |required|
        invariant meetsRequirements ==> forall q :: q in required[..j] ==> MeetsOne(provider, q)
        invariant !meetsRequirements ==> exists q :: q in required && !MeetsOne(provider, q)
      {
        if !MeetsOne(provider, required[j]) {
          meetsRequirements := false;
          break;
        }
        assert required[..j + 1] == required[..j] + [required[j]];
      }
      assert required[..|required|] == required;
      if !meetsRequirements {
        continue;
      }
      valid := valid + [Candidate(provider, config)];
    }
    assert configs[..|configs|] == configs;
  }

  // ----- candidate order -----

  function Named(cs: seq<Candidate>, name: string, same: bool): seq<Candidate>
    decreases |cs|
  {
    if cs == [] then []
    else
      var before := Named(cs[..|cs| - 1], name, same);
      if (cs[|cs| - 1].provider.name == name) == same then before + [cs[|cs| - 1]] else before
  }

  /** The stable sort on "is not the preferred provider": those of that name, then the others. */
  function PreferredFirst(cs: seq<Candidate>, preferred: Option<string>): seq<Candidate> {
    if preferred.None? || preferred.value == "" then cs
    else Named(cs, preferred.value, true) + Named(cs, preferred.value, false)
  }

  lemma {:induction false} NamedSplit(cs: seq<Candidate>, name: string)
    ensures multiset(Named(cs, name, true)) + multiset(Named(cs, name, false)) == multiset(cs)
    ensures forall same, c :: c in Named(cs, name, same) ==> (c.provider.name == name) == same
    decreases |cs|
  {
    if cs == [] {
    } else {
      var init, last := cs[..|cs| - 1], cs[|cs| - 1];
      NamedSplit(init, name);
      assert cs == init + [last];
      assert multiset(cs) == multiset(init) + multiset{last};
    }
  }

  lemma {:induction false} NamedAppend(cs: seq<Candidate>, ds: seq<Candidate>, name: string, same: bool)
    ensures Named(cs + ds, name, same) == Named(cs, name, same) + Named(ds, name, same)
    decreases |ds|
  {
    if ds == [] {
      assert cs + ds == cs;
    } else {
      assert (cs + ds)[..|cs + ds| - 1] == cs + ds[..|ds| - 1];
      NamedAppend(cs, ds[..|ds| - 1], name, same);
    }
  }

  lemma {:induction false} NamedOfUniform(cs: seq<Candidate>, name: string, same: bool)
    requires forall c :: c in cs ==> (c.provider.name == name) == same
    ensures Named(cs, name, same) == cs && Named(cs, name, !same) == []
    decreases |cs|
  {
    if cs == [] {
    } else {
      var init := cs[..|cs| - 1];
      assert forall c :: c in init ==> c in cs;
      NamedOfUniform(init, name, same);
      assert cs[|cs| - 1] in cs && cs == init + [cs[|cs| - 1]];
    }
  }

  /** The order keeps every candidate, puts the preferred provider's first and disturbs neither
      group's own order. */
  lemma PreferredFirstIsStable(cs: seq<Candidate>, name: string)
    requires name != ""
    ensures var r := PreferredFirst(cs, Some(name));
            && multiset(r) == multiset(cs)
            && Named(r, name, true) == Named(cs, name, true) && Named(r, name, false) == Named(cs, name, false)
            && forall i, j :: 0 <= i < j < |r| && r[j].provider.name == name ==> r[i].provider.name == name
  {
    hide Named;
    var p, q := Named(cs, name, true), Named(cs, name, false);
    NamedSplit(cs, name);
    NamedAppend(p, q, name, true);
    NamedAppend(p, q, name, false);
    NamedOfUniform(p, name, true);
    NamedOfUniform(q, name, false);
    NamedFirst(p, q, name);
  }

  lemma NamedFirst(p: seq<Candidate>, q: seq<Candidate>, name: string)
    requires forall c :: c in p ==> c.provider.name == name
    requires forall c :: c in q ==> c.provider.name != name
    ensures forall i, j :: 0 <= i < j < |p + q| && (p + q)[j].provider.name == name ==> (p + q)[i].provider.name == name
  {
    forall i | 0 <= i < |p + q|
      ensures (p + q)[i].provider.name == name <==> i < |p|
    {
      assert (p + q)[i] in if i < |p| then p else q;
    }
  }

  // ----- the whole selection -----

  /** What `route` asks of every candidate: only the free-tier flag is ever set. */
  function RouteRequirements(zeroSpend: bool): seq<Requirement> {
    [Flag(Streaming, false), Flag(StructuredOutput, false), Flag(Vision, false), Flag(Embeddings, false),
     Flag(RealtimeAudio, false), ContextTokens(0), Flag(IsLocal, false), Flag(IsFreeTier, zeroSpend)]
  }

  /** The caller's list of providers; an empty one allows all. */
  predicate Permits(allowed: seq<string>, name: string) {
    allowed == [] || name in allowed
  }

  function Permitted(cs: seq<Candidate>, allowed: seq<string>): seq<Candidate>
    decreases |cs|
  {
    if cs == [] then []
    else
      var before := Permitted(cs[..|cs| - 1], allowed);
      if Permits(allowed, cs[|cs| - 1].provider.name) then before + [cs[|cs| - 1]] else before
  }

  ghost function Selected(configs: seq<Config>, providers: map<string, Provider>, zeroSpend: bool, localOnly: bool,
                          allowed: seq<string>, preferred: Option<string>): seq<Candidate>
  {
    var qualifying := Qualifying(configs, providers, RouteRequirements(zeroSpend), localOnly);
    PreferredFirst(Permitted(qualifying, allowed), preferred)
  }

  method SelectCandidates(configs: seq<Config>, providers: map<string, Provider>, zeroSpend: bool, localOnly: bool,
                          allowed: seq<string>, preferred: Option<string>) returns (cs: seq<Candidate>)
    ensures cs == Selected(configs, providers, zeroSpend, localOnly, allowed, preferred)
  {
    cs := FilterCandidates(configs, providers, RouteRequirements(zeroSpend), localOnly);
    cs := PreferredFirst(Permitted(cs, allowed), preferred);
  }

  lemma {:induction false} QualifyingMembers(configs: seq<Config>, providers: map<string, Provider>,
          required: seq<Requirement>, localOnly: bool, c: Candidate)
    ensures c in Qualifying(configs, providers, required, localOnly) <==>
            c.config in configs && Qualifies(c.config, providers, required, localOnly)
            && c.provider == providers[c.config.provider]
    decreases |configs|
  {
    if configs == [] {
    } else {
      QualifyingMembers(configs[..|configs| - 1], providers, required, localOnly, c);
      assert configs == configs[..|configs| - 1] + [configs[|configs| - 1]];
    }
  }

  lemma {:induction false} PermittedMembers(cs: seq<Candidate>, allowed: seq<string>, c: Candidate)
    ensures c in Permitted(cs, allowed) <==> c in cs && Permits(allowed, c.provider.name)
    decreases |cs|
  {
    if cs == [] {
    } else {
      PermittedMembers(cs[..|cs| - 1], allowed, c);
      assert cs == cs[..|cs| - 1] + [cs[|cs| - 1]];
    }
  }

  lemma SameMembers(cs: seq<Candidate>, preferred: Option<string>, c: Candidate)
    ensures c in PreferredFirst(cs, preferred) <==> c in cs
  {
    if preferred.Some? && preferred.value != "" {
      PreferredFirstIsStable(cs, preferred.value);
      assert c in multiset(PreferredFirst(cs, preferred)) <==> c in multiset(cs);
    }
  }

  lemma RequirementsMet(p: Provider, zeroSpend: bool)
    ensures (forall q :: q in RouteRequirements(zeroSpend) ==> MeetsOne(p, q)) <==>
            (zeroSpend ==> IsFreeTier in p.has) && p.maxContextTokens >= 0
  {
    var qs := RouteRequirements(zeroSpend);
    assert qs[5] in qs && qs[7] in qs;
  }

  /** The candidates are exactly the eligible configurations, each with its provider. */
  lemma SelectedExactly(configs: seq<Config>, providers: map<string, Provider>, zeroSpend: bool, localOnly: bool,
                        allowed: seq<string>, preferred: Option<string>, c: Candidate)
    ensures c in Selected(configs, providers, zeroSpend, localOnly, allowed, preferred) <==>
            && c.config in configs && c.config.provider in providers && c.provider == providers[c.config.provider]
            && (localOnly ==> IsLocal in c.provider.has) && (zeroSpend ==> IsFreeTier in c.provider.has)
            && c.provider.maxContextTokens >= 0
            && (allowed == [] || c.provider.name in allowed)
  {
    var qualifying := Qualifying(configs, providers, RouteRequirements(zeroSpend), localOnly);
    SameMembers(Permitted(qualifying, allowed), preferred, c);
    PermittedMembers(qualifying, allowed, c);
    QualifyingMembers(configs, providers, RouteRequirements(zeroSpend), localOnly, c);
    if c.config.provider in providers {
      RequirementsMet(providers[c.config.provider], zeroSpend);
    }
  }

  /** Without a preference the candidates are in registry order. */
  lemma RegistryOrder(configs: seq<Config>, providers: map<string, Provider>, zeroSpend: bool, localOnly: bool,
                      allowed: seq<string>, preferred: Option<string>, c: Config)
    requires preferred == None || preferred == Some("")
    ensures Selected(configs + [c], providers, zeroSpend, localOnly, allowed, preferred) ==
            Selected(configs, providers, zeroSpend, localOnly, allowed, preferred)
            + if && c.provider in providers
                 && (localOnly ==> IsLocal in providers[c.provider].has)
                 && (zeroSpend ==> IsFreeTier in providers[c.provider].has)
                 && providers[c.provider].maxContextTokens >= 0
                 && (allowed == [] || providers[c.provider].name in allowed)
              then [Candidate(providers[c.provider], c)] else []
  {
    assert (configs + [c])[..|configs|] == configs;
    var before := Qualifying(configs, providers, RouteRequirements(zeroSpend), localOnly);
    if c.provider in providers {
      RequirementsMet(providers[c.provider], zeroSpend);
      assert (before + [Candidate(providers[c.provider], c)])[..|before|] == before;
    }
  }

  // ----- the fallback loop -----

  /** What happens to the candidate at each position, should it be reached: the clock at the
      router's and at the retry loop's breaker checks, and the provider's behaviour. */
  datatype World<!V> = World(
    firstCheck: nat -> int,
    secondCheck: nat -> int,
    script: nat -> Script<V>,
    cost: V -> real,
    consent: bool)

  datatype Context = Context(user: string, session: Option<string>, day: nat, spend: map<Key, real>)

  datatype Fate<V> =
    | NoConsent
    | OverBudget
    | BreakerOpen
    | GaveUp(kind: Option<Kind>)
    | Interrupted
    | Served(value: V)

  datatype RouteResult<V> =
    | Routed(index: nat, value: V)
    | ConsentRequired(index: nat)
    | BudgetExceeded(index: nat)
    | RouteCancelled(index: nat)
    | Unavailable(failures: map<string, Option<Kind>>)

  function Lookup(breakers: map<string, Breaker>, name: string): Breaker {
    if name in breakers then breakers[name] else UNTOUCHED
  }

  predicate Paid(c: Candidate) {
    IsFreeTier !in c.provider.has
  }

  function Estimate(c: Candidate): real {
    c.config.costIn + c.config.costOut
  }

  predicate Granted(x: Context, c: Candidate) {
    RoomFor(x.spend, x.user, x.day, x.session, Estimate(c))
  }

  /** How candidate `i` fares against its breaker `b`. */
  function FateOf<V>(w: World<V>, x: Context, maxRetries: nat, c: Candidate, i: nat, b: Breaker): Fate<V> {
    if Paid(c) && !w.consent then NoConsent
    else if Paid(c) && !Granted(x, c) then OverBudget
    else if !CanExecute(b, w.firstCheck(i)) then BreakerOpen
    else if !CanExecute(b, w.secondCheck(i)) then GaveUp(None)
    else
      match Verdict(w.script(i), maxRetries, StopFrom(w.script(i), maxRetries, 0))
      case Returned(v) => Served(v)
      case Exhausted(kind) => GaveUp(kind)
      case Cancelled => Interrupted
  }

  /** The breakers after candidate `i` has been tried. */
  function Tried<V>(w: World<V>, maxRetries: nat, c: Candidate, i: nat, breakers: map<string, Breaker>)
    : map<string, Breaker>
  {
    var b := Lookup(breakers, c.provider.name);
    if CanExecute(b, w.firstCheck(i)) && CanExecute(b, w.secondCheck(i))
    then breakers[c.provider.name := Aftermath(b, w.script(i), StopFrom(w.script(i), maxRetries, 0))]
    else breakers
  }

  /** The breakers as candidate `i` finds them, the earlier ones having been tried and passed over. */
  function Reaching<V>(w: World<V>, maxRetries: nat, cs: seq<Candidate>, breakers: map<string, Breaker>,
          i: nat): map<string, Breaker>
    requires i <= |cs|
  {
    if i == 0 then breakers else Tried(w, maxRetries, cs[i - 1], i - 1, Reaching(w, maxRetries, cs, breakers, i - 1))
  }

  /** The fate of the candidate at `i`, once reached. */
  function FateAt<V>(w: World<V>, x: Context, maxRetries: nat, cs: seq<Candidate>, breakers: map<string, Breaker>,
          i: nat): Fate<V>
    requires i < |cs|
  {
    FateOf(w, x, maxRetries, cs[i], i, Lookup(Reaching(w, maxRetries, cs, breakers, i), cs[i].provider.name))
  }

  predicate PassedOver<V>(f: Fate<V>) {
    f.BreakerOpen? || f.GaveUp?
  }

  /** The last failure of each provider that was called, among the first `n` candidates. */
  function FailuresBefore<V>(w: World<V>, x: Context, maxRetries: nat, cs: seq<Candidate>,
          breakers: map<string, Breaker>, n: nat): map<string, Option<Kind>>
    requires n <= |cs|
  {
    if n == 0 then map[]
    else
      var before := FailuresBefore(w, x, maxRetries, cs, breakers, n - 1);
      match FateAt(w, x, maxRetries, cs, breakers, n - 1)
      case GaveUp(kind) => before[cs[n - 1].provider.name := kind]
      case _ => before
  }

  /** Result `r` is decided by the first candidate that is not passed over. */
  ghost predicate DecidedByFirst<V>(w: World<V>, x: Context, maxRetries: nat, cs: seq<Candidate>,
          breakers: map<string, Breaker>, r: RouteResult<V>)
  {
    if r.Unavailable? then
      && (forall j :: 0 <= j < |cs| ==> PassedOver(FateAt(w, x, maxRetries, cs, breakers, j)))
      && r.failures == FailuresBefore(w, x, maxRetries, cs, breakers, |cs|)
    else
      && r.index < |cs|
      && (forall j :: 0 <= j < r.index ==> PassedOver(FateAt(w, x, maxRetries, cs, breakers, j)))
      && (match r
          case Routed(i, v) => FateAt(w, x, maxRetries, cs, breakers, i) == Served(v)
          case ConsentRequired(i) => FateAt(w, x, maxRetries, cs, breakers, i) == NoConsent
          case BudgetExceeded(i) => FateAt(w, x, maxRetries, cs, breakers, i) == OverBudget
          case RouteCancelled(i) => FateAt(w, x, maxRetries, cs, breakers, i) == Interrupted)
  }

  /** The candidate's provider answers: some call within the retry budget returns `v`, every call
      before it having failed in a way that is retried, and no cancellation in between. */
  ghost predicate Answers<V>(s: Script<V>, maxRetries: nat, v: V) {
    exists a: nat :: a <= maxRetries && TransientBefore(s, a) && ReturnsAt(s, a, v)
  }

  ghost predicate TransientBefore<V>(s: Script<V>, a: nat) {
    forall b :: 0 <= b < a ==>
      && !s.cancelledBefore(b) && !s.cancelledInWait(b)
      && (s.outcome(b) == Fails(RateLimit) || s.outcome(b) == Fails(Timeout) || s.outcome(b) == Fails(Server))
  }

  ghost predicate ReturnsAt<V>(s: Script<V>, a: nat, v: V) {
    !s.cancelledBefore(a) && s.outcome(a).Ok? && s.outcome(a).value == v
  }

  /** A reached candidate serves the request exactly when nothing refuses it, its breaker admits
      it and its provider answers within maxRetries + 1 calls. */
  lemma ServedIff<V>(w: World<V>, x: Context, maxRetries: nat, c: Candidate, i: nat, b: Breaker, v: V)
    ensures FateOf(w, x, maxRetries, c, i, b) == Served(v) <==>
            && (IsFreeTier !in c.provider.has ==>
                  w.consent && RoomFor(x.spend, x.user, x.day, x.session, c.config.costIn + c.config.costOut))
            && CanExecute(b, w.firstCheck(i)) && CanExecute(b, w.secondCheck(i))
            && Answers(w.script(i), maxRetries, v)
  {
    var s := w.script(i);
    var stop := StopFrom(s, maxRetries, 0);
    if Answers(s, maxRetries, v) {
      var a: nat :| a <= maxRetries && TransientBefore(s, a) && ReturnsAt(s, a, v);
      StopsWhere(s, maxRetries, 0, a);
    }
    if Verdict(s, maxRetries, stop) == Returned(v) {
      forall b: nat | b < stop
        ensures !s.cancelledBefore(b) && !s.cancelledInWait(b)
        ensures s.outcome(b) == Fails(RateLimit) || s.outcome(b) == Fails(Timeout) || s.outcome(b) == Fails(Server)
      {
        assert GoesOn(s, maxRetries, b);
      }
      assert TransientBefore(s, stop) && ReturnsAt(s, stop, v);
    }
  }

  /** The conditions fix the result: the loop has no choice in what it returns. */
  lemma DecisionUnique<V>(w: World<V>, x: Context, maxRetries: nat, cs: seq<Candidate>,
          breakers: map<string, Breaker>, r: RouteResult<V>, q: RouteResult<V>)
    requires DecidedByFirst(w, x, maxRetries, cs, breakers, r) && DecidedByFirst(w, x, maxRetries, cs, breakers, q)
    ensures r == q
  {
    hide FateAt;
    DeciderNotPassed(w, x, maxRetries, cs, breakers, r);
    DeciderNotPassed(w, x, maxRetries, cs, breakers, q);
  }

  lemma DeciderNotPassed<V>(w: World<V>, x: Context, maxRetries: nat, cs: seq<Candidate>,
          breakers: map<string, Breaker>, r: RouteResult<V>)
    requires DecidedByFirst(w, x, maxRetries, cs, breakers, r)
    ensures !r.Unavailable? ==> r.index < |cs| && !PassedOver(FateAt(w, x, maxRetries, cs, breakers, r.index))
  {
    hide FateAt;
  }

  /** A paid candidate that is reached without consent or without budget ends the route, whatever
      the candidates after it could do. */
  lemma RefusalEndsRoute<V>(w: World<V>, x: Context, maxRetries: nat, cs: seq<Candidate>,
          breakers: map<string, Breaker>, i: nat, r: RouteResult<V>)
    requires i < |cs| && IsFreeTier !in cs[i].provider.has
    requires !w.consent || !RoomFor(x.spend, x.user, x.day, x.session, cs[i].config.costIn + cs[i].config.costOut)
    requires forall j :: 0 <= j < i ==> PassedOver(FateAt(w, x, maxRetries, cs, breakers, j))
    requires DecidedByFirst(w, x, maxRetries, cs, breakers, r)
    ensures r == if !w.consent then ConsentRequired(i) else BudgetExceeded(i)
  {
    DecisionUnique(w, x, maxRetries, cs, breakers, r, if !w.consent then ConsentRequired(i) else BudgetExceeded(i));
  }

  // ----- what becomes of a candidate that the loop reaches -----

  /** A provider outside the free tier needs consent, and room for both of its prices under the
      user's five dollars of the day and the session's one dollar. One inside it needs neither. */
  lemma RefusedFor<V>(w: World<V>, x: Context, maxRetries: nat, cs: seq<Candidate>,
          breakers: map<string, Breaker>, i: nat, r: RouteResult<V>)
    requires i < |cs| && DecidedByFirst(w, x, maxRetries, cs, breakers, r)
    requires forall j :: 0 <= j < i ==> PassedOver(FateAt(w, x, maxRetries, cs, breakers, j))
    ensures IsFreeTier !in cs[i].provider.has && !w.consent ==> r == ConsentRequired(i)
    ensures IsFreeTier !in cs[i].provider.has && w.consent ==>
              var price := cs[i].config.costIn + cs[i].config.costOut;
              var daily := if Daily(x.user, x.day) in x.spend then x.spend[Daily(x.user, x.day)] else 0.0;
              var named := x.session.Some? && x.session.value != "";
              var own := if named && Session(x.session.value) in x.spend then x.spend[Session(x.session.value)]
                         else 0.0;
              r == BudgetExceeded(i) <==> daily + price > 5.0 || (named && own + price > 1.0)
    ensures IsFreeTier in cs[i].provider.has ==> r != ConsentRequired(i) && r != BudgetExceeded(i)
  {
    ReachedDecides(w, x, maxRetries, cs, breakers, i, r);
  }

  /** The result is at a reached candidate exactly when it is not passed over. */
  lemma ReachedDecides<V>(w: World<V>, x: Context, maxRetries: nat, cs: seq<Candidate>,
          breakers: map<string, Breaker>, i: nat, r: RouteResult<V>)
    requires i < |cs| && DecidedByFirst(w, x, maxRetries, cs, breakers, r)
    requires forall j :: 0 <= j < i ==> PassedOver(FateAt(w, x, maxRetries, cs, breakers, j))
    ensures match FateAt(w, x, maxRetries, cs, breakers, i)
            case NoConsent => r == ConsentRequired(i)
            case OverBudget => r == BudgetExceeded(i)
            case Interrupted => r == RouteCancelled(i)
            case Served(v) => r == Routed(i, v)
            case _ => r.Unavailable? || r.index > i
  {
    hide FateAt;
    DeciderNotPassed(w, x, maxRetries, cs, breakers, r);
  }

  /** If it is not refused and its breaker turns it away, at either check, the loop goes on. */
  lemma BrokenPassedOver<V>(w: World<V>, x: Context, maxRetries: nat, cs: seq<Candidate>,
          breakers: map<string, Breaker>, i: nat, r: RouteResult<V>)
    requires i < |cs| && DecidedByFirst(w, x, maxRetries, cs, breakers, r)
    requires forall j :: 0 <= j < i ==> PassedOver(FateAt(w, x, maxRetries, cs, breakers, j))
    requires r != ConsentRequired(i) && r != BudgetExceeded(i)
    requires var b := Lookup(Reaching(w, maxRetries, cs, breakers, i), cs[i].provider.name);
             !CanExecute(b, w.firstCheck(i)) || !CanExecute(b, w.secondCheck(i))
    ensures r.Unavailable? || r.index > i
  {
    ReachedDecides(w, x, maxRetries, cs, breakers, i, r);
    hide Reaching;
  }

  /** If its breaker admits it, its calls decide: the loop ends with the first that returns, however
      many rate limits, timeouts and server errors the retries allow before it. */
  lemma ReturningServes<V>(w: World<V>, x: Context, maxRetries: nat, cs: seq<Candidate>,
          breakers: map<string, Breaker>, i: nat, r: RouteResult<V>, k: nat, v: V)
    requires i < |cs| && DecidedByFirst(w, x, maxRetries, cs, breakers, r)
    requires forall j :: 0 <= j < i ==> PassedOver(FateAt(w, x, maxRetries, cs, breakers, j))
    requires r != ConsentRequired(i) && r != BudgetExceeded(i)
    requires var b := Lookup(Reaching(w, maxRetries, cs, breakers, i), cs[i].provider.name);
             CanExecute(b, w.firstCheck(i)) && CanExecute(b, w.secondCheck(i))
    requires k <= maxRetries && !w.script(i).cancelledBefore(k) && w.script(i).outcome(k) == Ok(v)
    requires forall a :: 0 <= a < k ==> !w.script(i).cancelledBefore(a) && !w.script(i).cancelledInWait(a)
    requires forall a :: 0 <= a < k ==>
               var o := w.script(i).outcome(a);
               o == Fails(RateLimit) || o == Fails(Timeout) || o == Fails(Server)
    ensures r == Routed(i, v)
  {
    RetriedUntilReturned(w.script(i), maxRetries, k, v);
    ReachedDecides(w, x, maxRetries, cs, breakers, i, r);
    hide Reaching;
    hide StopFrom;
    hide Verdict;
  }

  /** A call that fails for good, by its kind or as the last allowed, sends the loop on. */
  lemma FailingPassedOver<V>(w: World<V>, x: Context, maxRetries: nat, cs: seq<Candidate>,
          breakers: map<string, Breaker>, i: nat, r: RouteResult<V>, k: nat, kind: Kind)
    requires i < |cs| && DecidedByFirst(w, x, maxRetries, cs, breakers, r)
    requires forall j :: 0 <= j < i ==> PassedOver(FateAt(w, x, maxRetries, cs, breakers, j))
    requires r != ConsentRequired(i) && r != BudgetExceeded(i)
    requires k <= maxRetries && !w.script(i).cancelledBefore(k) && w.script(i).outcome(k) == Fails(kind)
    requires kind == Auth || kind == Unknown || k == maxRetries
    requires forall a :: 0 <= a < k ==> !w.script(i).cancelledBefore(a) && !w.script(i).cancelledInWait(a)
    requires forall a :: 0 <= a < k ==>
               var o := w.script(i).outcome(a);
               o == Fails(RateLimit) || o == Fails(Timeout) || o == Fails(Server)
    ensures r.Unavailable? || r.index > i
  {
    if kind == Auth || kind == Unknown {
      RetriedUntilHopeless(w.script(i), maxRetries, k, kind);
    } else {
      RetriedInVain(w.script(i), maxRetries, kind);
    }
    ReachedDecides(w, x, maxRetries, cs, breakers, i, r);
    hide Reaching;
    hide StopFrom;
    hide Verdict;
  }

  /** When every candidate failed, the result names the last failure of each provider called. */
  lemma FailureNamed<V>(w: World<V>, x: Context, maxRetries: nat, cs: seq<Candidate>,
          breakers: map<string, Breaker>, i: nat, r: RouteResult<V>, kind: Option<Kind>)
    requires i < |cs| && DecidedByFirst(w, x, maxRetries, cs, breakers, r) && r.Unavailable?
    requires FateAt(w, x, maxRetries, cs, breakers, i) == GaveUp(kind)
    requires forall j :: i < j < |cs| ==> cs[j].provider.name != cs[i].provider.name
    ensures cs[i].provider.name in r.failures && r.failures[cs[i].provider.name] == kind
  {
    hide FateAt;
    FailureKept(w, x, maxRetries, cs, breakers, i, |cs|);
  }

  lemma {:induction false} FailureKept<V>(w: World<V>, x: Context, maxRetries: nat, cs: seq<Candidate>,
          breakers: map<string, Breaker>, i: nat, n: nat)
    requires i < n <= |cs| && FateAt(w, x, maxRetries, cs, breakers, i).GaveUp?
    requires forall j :: i < j < n ==> cs[j].provider.name != cs[i].provider.name
    ensures var failures := FailuresBefore(w, x, maxRetries, cs, breakers, n);
            cs[i].provider.name in failures
            && failures[cs[i].provider.name] == FateAt(w, x, maxRetries, cs, breakers, i).kind
  {
    hide FateAt;
    if i < n - 1 {
      FailureKept(w, x, maxRetries, cs, breakers, i, n - 1);
    }
  }

  /** Trying a candidate leaves other providers' counters alone and adds to its own one failure
      for each call that failed, or clears it if a call returned. */
  lemma TriedCounter<V>(w: World<V>, maxRetries: nat, c: Candidate, i: nat, breakers: map<string, Breaker>,
          name: string)
    ensures var before := Lookup(breakers, name);
            var after := Lookup(Tried(w, maxRetries, c, i, breakers), name);
            var s := w.script(i);
            var stop := StopFrom(s, maxRetries, 0);
            if name != c.provider.name
               || !CanExecute(before, w.firstCheck(i)) || !CanExecute(before, w.secondCheck(i)) then after == before
            else if Verdict(s, maxRetries, stop).Returned? then after.failures == 0
            else after.failures == before.failures + stop + (if FailsAt(s, stop) then 1 else 0)
  {
    AftermathCounter(Lookup(breakers, name), w.script(i), maxRetries);
  }

  class Router {
    const guard: Guard
    var breakers: map<string, Breaker>

    constructor (guard: Guard, breakers: map<string, Breaker>)
      ensures this.guard == guard && this.breakers == breakers
    {
      this.guard, this.breakers := guard, breakers;
    }

    /** One pass of the loop: consent and budget for a paid provider, then its breaker, then
        the retried call. */
    method Try<V>(c: Candidate, i: nat, user: string, session: Option<string>, w: World<V>, maxRetries: nat, base: nat)
      returns (fate: Fate<V>)
      requires forall a :: w.script(i).jitter(a) <= 50
      modifies this`breakers
      ensures fate == FateOf(w, Context(user, session, guard.today, guard.spend), maxRetries, c, i,
                             Lookup(old(breakers), c.provider.name))
      ensures breakers == if fate.NoConsent? || fate.OverBudget? then old(breakers)
                          else Tried(w, maxRetries, c, i, old(breakers))
    {
      hide StopFrom;
      hide Verdict;
      hide Aftermath;
      hide CanExecute;
      hide Within;
      hide HasCounter;
      var name := c.provider.name;
      if IsFreeTier !in c.provider.has {
        if !w.consent {
          return NoConsent;
        }
        var verdict := guard.CheckAndReserve(user, session, c.config.costIn + c.config.costOut);
        if verdict != Pass {
          return OverBudget;
        }
      }
      var keys := new BreakerKeys(Lookup(breakers, name));
      var admitted := keys.Admits(w.firstCheck(i));
      if !admitted {
        return BreakerOpen;
      }
      var result, calls, slept := WithRetries(keys, w.script(i), maxRetries, base, w.secondCheck(i));
      if CanExecute(Lookup(breakers, name), w.secondCheck(i)) {
        breakers := breakers[name := keys.View()];
      }
      match result {
        case Cancelled => return Interrupted;
        case Exhausted(kind) => return GaveUp(kind);
        case Returned(v) => return Served(v);
      }
    }

    /** The loop over ordered candidates. */
    method Route<V>(cs: seq<Candidate>, user: string, session: Option<string>, w: World<V>, maxRetries: nat, base: nat)
      returns (r: RouteResult<V>)
      requires forall i, a :: w.script(i).jitter(a) <= 50
      modifies this`breakers, guard`spend
      ensures DecidedByFirst(w, Context(user, session, guard.today, old(guard.spend)), maxRetries, cs, old(breakers), r)
      ensures r.Routed? || r.RouteCancelled? ==> breakers == Reaching(w, maxRetries, cs, old(breakers), r.index + 1)
      ensures r.ConsentRequired? || r.BudgetExceeded? ==>
              breakers == Reaching(w, maxRetries, cs, old(breakers), r.index)
      ensures r.Unavailable? ==> breakers == Reaching(w, maxRetries, cs, old(breakers), |cs|)
      ensures guard.spend ==
              if r.Routed? && Paid(cs[r.index]) && w.cost(r.value) > 0.0
              then Committed(old(guard.spend), user, guard.today, session, w.cost(r.value))
              else old(guard.spend)
      ensures if r.Routed? && IsFreeTier !in cs[r.index].provider.has && w.cost(r.value) > 0.0 then
                forall k :: (if k in guard.spend then guard.spend[k] else 0.0) ==
                  (if k in old(guard.spend) then old(guard.spend)[k] else 0.0)
                  + if || k == Daily(user, guard.today)
                       || (session.Some? && session.value != "" && k == Session(session.value))
                    then w.cost(r.value) else 0.0
              else guard.spend == old(guard.spend)
    {
      hide FateOf;
      hide Tried;
      hide Committed;
      ghost var x := Context(user, session, guard.today, guard.spend);
      ghost var start := breakers;
      var failures: map<string, Option<Kind>> := map[];
      for i := 0 to |cs|
        invariant breakers == Reaching(w, maxRetries, cs, start, i) && guard.spend == x.spend
        invariant forall j :: 0 <= j < i ==> PassedOver(FateAt(w, x, maxRetries, cs, start, j))
        invariant failures == FailuresBefore(w, x, maxRetries, cs, start, i)
      {
        var c := cs[i];
        var fate := Try(c, i, user, session, w, maxRetries, base);
        match fate {
          case NoConsent => return ConsentRequired(i);
          case OverBudget => return BudgetExceeded(i);
          case Interrupted => return RouteCancelled(i);
          case BreakerOpen =>
          case GaveUp(kind) =>
            failures := failures[c.provider.name := kind];
          case Served(v) =>
            if Paid(c) && w.cost(v) > 0.0 {
              guard.CommitSpend(user, session, w.cost(v));
              forall k {
                CommittedAdds(x.spend, user, guard.today, session, w.cost(v), k);
              }
            }
            return Routed(i, v);
        }
      }
      r := Unavailable(failures);
    }
  }
}
