/** The per-minute request counter. All routes of an identifier share it; only the limit it is
    compared with depends on the route. Times are in milliseconds. */
module RateLimiter {

  const MINUTE := 60_000
  const TTL := 120_000
  const DEFAULT_RPM := 60

  const ROUTE_LIMITS: seq<(string, nat)> := [
    ("/api/v1/auth/signup", 5),
    ("/api/v1/resumes", 10),
    ("/api/v1/jobs/analyze", 10),
    ("/api/v1/sessions", 20),
    ("/api/v1/interview-engines", 20),
    ("/api/v1/prepare-me", 15),
    ("/api/v1/preparation", 20),
    ("/api/v1/exports", 5),
    ("/api/v1/admin", 30),
    ("/api/v1/health", 120)]

  datatype Request = Request(time: nat, id: string, path: string)

  datatype Counter = Counter(count: nat, expires: nat)

  type Key = (string, nat)

  // ----- the limit of a route -----

  /** The limit of the first entry whose prefix the path has. */
  function FirstMatch(table: seq<(string, nat)>, path: string): nat {
    if table == [] then DEFAULT_RPM
    else if table[0].0 <= path then table[0].1
    else FirstMatch(table[1..], path)
  }

  function Limit(path: string): nat {
    FirstMatch(ROUTE_LIMITS, path)
  }

  predicate StartsWith(path: string, prefix: string) {
    |prefix| <= |path| && path[..|prefix|] == prefix
  }

  /** The first entry the path starts with decides, and sixty a minute if there is none. */
  lemma {:induction false} FirstPrefixDecides(table: seq<(string, nat)>, path: string)
    ensures if exists i :: 0 <= i < |table| && StartsWith(path, table[i].0)
            then exists i :: && 0 <= i < |table| && StartsWith(path, table[i].0)
                             && (forall j :: 0 <= j < i ==> !StartsWith(path, table[j].0))
                             && FirstMatch(table, path) == table[i].1
            else FirstMatch(table, path) == 60
    decreases |table|
  {
    if table == [] {
    } else if StartsWith(path, table[0].0) {
      assert table[0].0 <= path;
    } else {
      var rest := table[1..];
      assert !(table[0].0 <= path);
      FirstPrefixDecides(rest, path);
      assert forall i :: 0 <= i < |rest| ==> rest[i] == table[i + 1];
      if k :| 0 <= k < |table| && StartsWith(path, table[k].0) {
        assert StartsWith(path, rest[k - 1].0);
        var i :| && 0 <= i < |rest| && StartsWith(path, rest[i].0)
                 && (forall j :: 0 <= j < i ==> !StartsWith(path, rest[j].0)) && FirstMatch(rest, path) == rest[i].1;
        assert forall j :: 0 <= j < i + 1 ==> j == 0 || table[j] == rest[j - 1];
        assert StartsWith(path, table[i + 1].0) && FirstMatch(table, path) == table[i + 1].1;
      }
    }
  }

  lemma EntriesDiffer(i: nat, j: nat)
    requires i < j < 10
    ensures var (a, b) := (ROUTE_LIMITS[i].0, ROUTE_LIMITS[j].0);
            |a| > 8 && |b| > 8
            && (a[8] != b[8] || a[9] != b[9] || (|a| > 14 && |b| > 14 && a[14] != b[14]))
  {
    var eighth := "arjsippeah";
    assert forall k :: 0 <= k < 10 ==> ROUTE_LIMITS[k].0[8] == eighth[k];
    assert ROUTE_LIMITS[0].0[9] == 'u' && ROUTE_LIMITS[8].0[9] == 'd';
    assert ROUTE_LIMITS[5].0[14] == 'e' && ROUTE_LIMITS[6].0[14] == 'a';
  }

  /** No entry hides another, so the order of the table does not matter: a path has the limit of any
      entry it starts with. */
  lemma NoEntryShadowed(path: string, i: nat)
    requires i < |ROUTE_LIMITS| && StartsWith(path, ROUTE_LIMITS[i].0)
    ensures Limit(path) == ROUTE_LIMITS[i].1
  {
    FirstPrefixDecides(ROUTE_LIMITS, path);
    var k :| && 0 <= k < |ROUTE_LIMITS| && StartsWith(path, ROUTE_LIMITS[k].0)
             && (forall j :: 0 <= j < k ==> !StartsWith(path, ROUTE_LIMITS[j].0)) && Limit(path) == ROUTE_LIMITS[k].1;
    if k < i {
      EntriesDiffer(k, i);
    }
  }

  method LimitFor(path: string) returns (limit: nat)
    ensures limit == Limit(path)
    ensures if exists i :: 0 <= i < |ROUTE_LIMITS| && StartsWith(path, ROUTE_LIMITS[i].0)
            then exists i :: && 0 <= i < |ROUTE_LIMITS| && StartsWith(path, ROUTE_LIMITS[i].0)
                             && (forall j :: 0 <= j < i ==> !StartsWith(path, ROUTE_LIMITS[j].0))
                             && limit == ROUTE_LIMITS[i].1
            else limit == 60
  {
    FirstPrefixDecides(ROUTE_LIMITS, path);
    limit := DEFAULT_RPM;
    for i := 0 to |ROUTE_LIMITS|
      invariant limit == DEFAULT_RPM
      invariant Limit(path) == FirstMatch(ROUTE_LIMITS[i..], path)
    {
      if ROUTE_LIMITS[i].0 <= path {
        return ROUTE_LIMITS[i].1;
      }
    }
  }

  // ----- one request -----

  function KeyOf(r: Request): Key {
    (r.id, r.time / MINUTE)
  }

  /** The count a read of the key finds. */
  function Current(counters: map<Key, Counter>, k: Key, now: nat): nat {
    if k in counters && now < counters[k].expires then counters[k].count else 0
  }

  function Counted(counters: map<Key, Counter>, r: Request): map<Key, Counter> {
    counters[KeyOf(r) := Counter(Current(counters, KeyOf(r), r.time) + 1, r.time + TTL)]
  }

  class Limiter {
    var counters: map<Key, Counter>

    constructor ()
      ensures counters == map[]
    {
      counters := map[];
    }

    /** An unreachable Redis lets the request through uncounted. */
    method Dispatch(r: Request, reachable: bool) returns (admitted: bool)
      modifies this
      ensures !reachable ==> admitted && counters == old(counters)
      ensures reachable ==>
                && counters == Counted(old(counters), r)
                && (admitted <==> Current(old(counters), KeyOf(r), r.time) + 1 <= Limit(r.path))
    {
      var limit := LimitFor(r.path);
      if !reachable {
        return true;
      }
      var key := (r.id, r.time / MINUTE);
      var count := 1;
      if key in counters && r.time < counters[key].expires {
        count := counters[key].count + 1;
      }
      counters := counters[key := Counter(count, r.time + TTL)];
      admitted := !(count > limit);
    }
  }

  // ----- arrival sequences -----

  function After(h: seq<Request>): map<Key, Counter>
    decreases |h|
  {
    if h == [] then map[] else Counted(After(h[..|h| - 1]), h[|h| - 1])
  }

  predicate Admitted(h: seq<Request>, i: nat)
    requires i < |h|
  {
    Current(After(h[..i]), KeyOf(h[i]), h[i].time) + 1 <= Limit(h[i].path)
  }

  ghost predicate Chronological(h: seq<Request>) {
    forall i, j :: 0 <= i < j < |h| ==> h[i].time <= h[j].time
  }

  /** Requests counted under key `k`. */
  function Requests(h: seq<Request>, k: Key): nat
    decreases |h|
  {
    if h == [] then 0 else Requests(h[..|h| - 1], k) + if KeyOf(h[|h| - 1]) == k then 1 else 0
  }

  /** The key never expires while its minute lasts, so its counter is the number of requests. */
  lemma {:induction false} CounterCountsRequests(h: seq<Request>, k: Key, now: nat)
    requires Chronological(h) && (forall i :: 0 <= i < |h| ==> h[i].time <= now) && now / MINUTE == k.1
    ensures Current(After(h), k, now) == Requests(h, k)
    decreases |h|
  {
    if h == [] {
    } else {
      var g, r := h[..|h| - 1], h[|h| - 1];
      CounterCountsRequests(g, k, now);
      if KeyOf(r) == k {
        CounterCountsRequests(g, k, r.time);
      }
    }
  }

  /** A request is admitted exactly when its rank among all the identifier's requests of that
      minute, on whatever routes and admitted or not, is within its own route's limit. */
  lemma AdmittedIff(h: seq<Request>, i: nat)
    requires Chronological(h) && i < |h|
    ensures Admitted(h, i) <==> Requests(h[..i + 1], KeyOf(h[i])) <= Limit(h[i].path)
  {
    CounterCountsRequests(h[..i], KeyOf(h[i]), h[i].time);
    assert h[..i + 1][..i] == h[..i];
  }

  predicate InWindow(r: Request, id: string, minute: nat) {
    r.id == id && r.time / 60_000 == minute
  }

  /** The requests of an identifier in a clock minute, among the first `n`. */
  function Window(h: seq<Request>, n: nat, id: string, minute: nat): set<nat>
    requires n <= |h|
  {
    set j: nat | j < n && InWindow(h[j], id, minute)
  }

  lemma WindowSnoc(h: seq<Request>, n: nat, id: string, m: nat)
    requires 0 < n <= |h|
    ensures |Window(h, n, id, m)| == |Window(h, n - 1, id, m)| + if InWindow(h[n - 1], id, m) then 1 else 0
  {
    hide InWindow;
    if InWindow(h[n - 1], id, m) {
      assert Window(h, n, id, m) == Window(h, n - 1, id, m) + {n - 1};
    } else {
      assert Window(h, n, id, m) == Window(h, n - 1, id, m);
    }
  }

  lemma {:induction false} RequestsInWindow(h: seq<Request>, n: nat, id: string, m: nat)
    requires n <= |h|
    ensures Requests(h[..n], (id, m)) == |Window(h, n, id, m)|
    decreases n
  {
    if n == 0 {
      assert Window(h, 0, id, m) == {};
    } else {
      hide Window;
      RequestsInWindow(h, n - 1, id, m);
      WindowSnoc(h, n, id, m);
      assert h[..n][..n - 1] == h[..n - 1];
    }
  }

  /** So identifiers do not count against each other, and neither do clock minutes. */
  lemma AdmittedByRank(h: seq<Request>, i: nat)
    requires Chronological(h) && i < |h|
    ensures Admitted(h, i) <==> |Window(h, i + 1, h[i].id, h[i].time / 60_000)| <= Limit(h[i].path)
  {
    AdmittedIff(h, i);
    RequestsInWindow(h, i + 1, h[i].id, h[i].time / 60_000);
  }

  // ----- how many get through -----

  /** Admitted requests of `id` on routes with limits up to `limit`, from time `from` until before `until`. */
  function Passed(h: seq<Request>, n: nat, id: string, limit: nat, from: nat, until: nat): nat
    requires n <= |h|
  {
    if n == 0 then 0
    else
      var r := h[n - 1];
      Passed(h, n - 1, id, limit, from, until)
      + if r.id == id && Limit(r.path) <= limit && from <= r.time < until && Admitted(h, n - 1) then 1 else 0
  }

  lemma SameMinute(t: nat, m: nat)
    ensures t / MINUTE == m <==> m * MINUTE <= t < (m + 1) * MINUTE
  {
  }

  lemma {:induction false} MinuteInvariant(h: seq<Request>, n: nat, id: string, limit: nat, m: nat)
    requires Chronological(h) && n <= |h|
    ensures Passed(h, n, id, limit, m * MINUTE, (m + 1) * MINUTE) <= limit
    ensures Passed(h, n, id, limit, m * MINUTE, (m + 1) * MINUTE) <= Requests(h[..n], (id, m))
    decreases n
  {
    if n == 0 {
    } else {
      MinuteInvariant(h, n - 1, id, limit, m);
      assert h[..n][..n - 1] == h[..n - 1];
      SameMinute(h[n - 1].time, m);
      AdmittedIff(h, n - 1);
    }
  }

  /** In any clock minute at most `limit` requests of an identifier pass on all the routes with at
      most that limit together. */
  lemma MinuteBound(h: seq<Request>, id: string, limit: nat, m: nat)
    requires Chronological(h)
    ensures Passed(h, |h|, id, limit, m * MINUTE, (m + 1) * MINUTE) <= limit
  {
    MinuteInvariant(h, |h|, id, limit, m);
  }

  lemma {:induction false} WindowSplits(h: seq<Request>, n: nat, id: string, limit: nat, a: nat, b: nat, c: nat,
          d: nat, e: nat)
    requires n <= |h| && a <= b && b <= c <= e && c <= d <= e
    ensures Passed(h, n, id, limit, b, d) <= Passed(h, n, id, limit, a, c) + Passed(h, n, id, limit, c, e)
    decreases n
  {
    if n == 0 {
    } else {
      WindowSplits(h, n - 1, id, limit, a, b, c, d, e);
    }
  }

  /** In any sixty seconds at most twice as many. */
  lemma AnySixtySeconds(h: seq<Request>, id: string, limit: nat, start: nat)
    requires Chronological(h)
    ensures Passed(h, |h|, id, limit, start, start + MINUTE) <= 2 * limit
  {
    var m := start / MINUTE;
    SameMinute(start, m);
    MinuteBound(h, id, limit, m);
    MinuteBound(h, id, limit, m + 1);
    WindowSplits(h, |h|, id, limit, m * MINUTE, start, (m + 1) * MINUTE, start + MINUTE, (m + 2) * MINUTE);
  }

  // ----- and twice the limit does get through -----

  function Burst(path: string, n: nat): seq<Request> {
    seq(2 * n, i requires 0 <= i < 2 * n => Request(if i < n then MINUTE - 1 else MINUTE, "u", path))
  }

  lemma {:induction false} BurstRequests(path: string, n: nat, i: nat)
    requires i <= 2 * n
    ensures Requests(Burst(path, n)[..i], ("u", 0)) == if i <= n then i else n
    ensures Requests(Burst(path, n)[..i], ("u", 1)) == if i <= n then 0 else i - n
    decreases i
  {
    if i == 0 {
    } else {
      BurstRequests(path, n, i - 1);
      assert Burst(path, n)[..i][..i - 1] == Burst(path, n)[..i - 1];
    }
  }

  lemma {:induction false} BurstPasses(path: string, n: nat, i: nat)
    requires n == Limit(path) && i <= 2 * n
    ensures Passed(Burst(path, n), i, "u", n, MINUTE - 1, MINUTE - 1 + MINUTE) == i
    decreases i
  {
    hide Limit;
    hide Admitted;
    hide Requests;
    if i == 0 {
    } else {
      BurstPasses(path, n, i - 1);
      BurstRequests(path, n, i);
      AdmittedIff(Burst(path, n), i - 1);
    }
  }

  /** The bound is attained on every route: a burst at the end of one minute and another at the
      start of the next. */
  lemma TwiceTheLimitPasses(path: string)
    ensures var h := Burst(path, Limit(path));
            Chronological(h) && Passed(h, |h|, "u", Limit(path), MINUTE - 1, MINUTE - 1 + MINUTE) == 2 * Limit(path)
  {
    BurstPasses(path, Limit(path), 2 * Limit(path));
  }
}
