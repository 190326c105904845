/** Per-domain facts about a candidate, updated once per finished session. The database column
    for the average keeps four decimals; `Storage` says whether that rounding takes place. */
module TopicFacts {
  import opened Options
  import SM2 = SpacedRepetition

  // ----- scores of a session -----

  /** A scored candidate turn; turns without a domain count as "general". */
  datatype Turn = Turn(domain: Option<string>, correctness: real)

  function DomainOf(t: Turn): string {
    if t.domain.None? || t.domain.value == "" then "general" else t.domain.value
  }

  function ScoresOf(turns: seq<Turn>, domain: string): seq<real>
    decreases |turns|
  {
    if turns == [] then []
    else
      ScoresOf(turns[..|turns| - 1], domain)
      + if DomainOf(turns[|turns| - 1]) == domain then [turns[|turns| - 1].correctness] else []
  }

  function Sum(s: seq<real>): real
    decreases |s|
  {
    if s == [] then 0.0 else Sum(s[..|s| - 1]) + s[|s| - 1]
  }

  function CountCorrect(s: seq<real>): nat
    decreases |s|
  {
    if s == [] then 0 else CountCorrect(s[..|s| - 1]) + if s[|s| - 1] >= 0.5 then 1 else 0
  }

  function CountWeak(s: seq<real>): nat
    decreases |s|
  {
    if s == [] then 0 else CountWeak(s[..|s| - 1]) + if s[|s| - 1] < 0.5 then 1 else 0
  }

  // ----- storage -----

  datatype Storage = Exact | FourDecimals

  /** numeric(5,4): to the nearest ten-thousandth, halves up (scores are not negative). */
  function Stored(st: Storage, x: real): real {
    if st == Exact then x else (x * 10000.0 + 0.5).Floor as real / 10000.0
  }

  function Epsilon(st: Storage): real {
    if st == Exact then 0.0 else 0.00005
  }

  lemma StoredNear(st: Storage, x: real)
    ensures -Epsilon(st) <= Stored(st, x) - x <= Epsilon(st)
  {
    if st == FourDecimals {
      var y := x * 10000.0;
      var f := (y + 0.5).Floor as real;
      assert y - 0.5 <= f <= y + 0.5;
      assert Stored(st, x) * 10000.0 == f;
    }
  }

  // ----- the spaced-repetition part of a row -----

  datatype Review = Review(interval: int, ease: real, repetitions: nat)

  const NEW_REVIEW := Review(1, 2.5, 0)

  function Eased(ease: real, score: real): real {
    var e := ease + 0.1 - (5.0 - score) * (0.08 + (5.0 - score) * 0.02);
    var capped := if e > 3.5 then 3.5 else e;
    if capped < 1.3 then 1.3 else capped
  }

  /** `_sm2_update` on a score in 0..5, and what the row then holds. */
  function Sm2Update(st: Storage, r: Review, score: real): Review {
    var ease := Eased(r.ease, score);
    if score < 3.0 then Review(1, Stored(st, ease), 0)
    else
      var reps := r.repetitions + 1;
      Review(if reps == 1 then 1 else if reps == 2 then 6 else SM2.Round(SM2.Stretched(r.interval as real, ease)),
             Stored(st, ease), reps)
  }

  ghost predicate HealthyReview(r: Review) {
    && 1.3 <= r.ease <= 3.5 && r.interval >= 1
    && (r.repetitions == 1 ==> r.interval == 1)
    && (r.repetitions >= 2 ==> r.interval >= 6)
  }

  lemma StoredEaseInRange(st: Storage, ease: real)
    requires 1.3 <= ease <= 3.5
    ensures 1.3 <= Stored(st, ease) <= 3.5
  {
    if st == FourDecimals {
      var f := (ease * 10000.0 + 0.5).Floor;
      assert 13000 <= f <= 35000;
    }
  }

  /** The schedule keeps its bounds, and a third or later success in a row stretches the interval
      by at least a quarter. */
  lemma Sm2Step(st: Storage, r: Review, score: real)
    requires HealthyReview(r)
    ensures HealthyReview(Sm2Update(st, r, score))
    ensures score >= 3.0 && r.repetitions >= 2 ==> 4 * Sm2Update(st, r, score).interval >= 5 * r.interval
  {
    StoredEaseInRange(st, Eased(r.ease, score));
    if r.repetitions >= 2 {
      SM2.GrowsByQuarter(r.interval, Eased(r.ease, score));
    }
  }

  // ----- one domain's row -----

  datatype Facts = Facts(sessions: nat, answered: nat, correct: nat, weak: nat, average: Option<real>, review: Review)

  function Mean(s: seq<real>): real
    requires s != []
  {
    Sum(s) / |s| as real
  }

  function Scaled(x: real, n: nat): real {
    x * n as real
  }

  /** The running average, before it is stored. */
  function Blend(average: real, answered: nat, mean: real, count: nat): real
    requires count > 0
  {
    (Scaled(average, answered) + Scaled(mean, count)) / (answered + count) as real
  }

  function Upsert(st: Storage, row: Option<Facts>, scores: seq<real>): Facts
    requires scores != []
  {
    var mean := Mean(scores);
    match row
    case None =>
      Facts(1, |scores|, CountCorrect(scores), CountWeak(scores), Some(Stored(st, mean)),
            Sm2Update(st, NEW_REVIEW, mean * 5.0))
    case Some(f) =>
      var previous := if f.average.Some? then f.average.value else mean;
      Facts(f.sessions + 1, f.answered + |scores|, f.correct + CountCorrect(scores), f.weak + CountWeak(scores),
            Some(Stored(st, Blend(previous, f.answered, mean, |scores|))), Sm2Update(st, f.review, mean * 5.0))
  }

  function RowOf(table: map<string, Facts>, domain: string): Option<Facts> {
    if domain in table then Some(table[domain]) else None
  }

  /** The table a session leaves, read off one domain at a time. */
  ghost predicate UpdatedBy(st: Storage, before: map<string, Facts>, turns: seq<Turn>, after: map<string, Facts>) {
    forall d :: RowOf(after, d) ==
                if ScoresOf(turns, d) == [] then RowOf(before, d)
                else Some(Upsert(st, RowOf(before, d), ScoresOf(turns, d)))
  }

  class Memory {
    const storage: Storage
    var table: map<string, Facts>

    constructor (storage: Storage)
      ensures this.storage == storage && table == map[]
    {
      this.storage := storage;
      table := map[];
    }

    /** `update_topic_facts_from_session`: collect the scores by domain, then insert or update one
        row per domain met. */
    method UpdateFromSession(turns: seq<Turn>)
      modifies this
      ensures UpdatedBy(storage, old(table), turns, table)
    {
      var order, scores := Collect(turns);
      ghost var before := table;
      hide Upsert;
      hide ScoresOf;
      for i := 0 to |order|
        invariant forall d :: RowOf(table, d) ==
                    if d in order[..i] then Some(Upsert(storage, RowOf(before, d), ScoresOf(turns, d)))
                    else RowOf(before, d)
      {
        var d := order[i];
        assert d !in order[..i];
        assert forall e :: e in order[..i + 1] <==> e in order[..i] || e == d;
        table := table[d := Upsert(storage, RowOf(table, d), scores[d])];
      }
      assert order[..|order|] == order;
    }

    /** The grouping loop. */
    static method Collect(turns: seq<Turn>) returns (order: seq<string>, scores: map<string, seq<real>>)
      ensures Grouped(turns, order, scores)
    {
      hide *;
      order, scores := [], map[];
      NothingGrouped();
      assert turns[..0] == [];
      for k := 0 to |turns|
        invariant Grouped(turns[..k], order, scores)
      {
        GroupedAdd(turns[..k], order, scores, turns[k]);
        assert turns[..k] + [turns[k]] == turns[..k + 1];
        ghost var before := scores;
        var d := DomainOf(turns[k]);
        if d !in scores {
          scores := scores[d := []];
          order := order + [d];
        }
        scores := scores[d := scores[d] + [turns[k].correctness]];
        assert scores == before[d := (if d in before then before[d] else []) + [turns[k].correctness]];
      }
      assert turns[..|turns|] == turns;
    }
  }

  /** Each domain met is listed once, with its scores. */
  ghost predicate Grouped(turns: seq<Turn>, order: seq<string>, scores: map<string, seq<real>>) {
    && (forall d :: d in order <==> ScoresOf(turns, d) != [])
    && (forall d :: d in scores <==> d in order)
    && (forall d :: d in scores ==> scores[d] == ScoresOf(turns, d))
    && (forall i, j :: 0 <= i < j < |order| ==> order[i] != order[j])
  }

  lemma GroupedAdd(turns: seq<Turn>, order: seq<string>, scores: map<string, seq<real>>, t: Turn)
    requires Grouped(turns, order, scores)
    ensures var d := DomainOf(t);
            Grouped(turns + [t], if d in scores then order else order + [d],
                    scores[d := (if d in scores then scores[d] else []) + [t.correctness]])
  {
    hide ScoresOf;
    ScoresSnoc(turns, t);
  }

  lemma ScoresSnoc(turns: seq<Turn>, t: Turn)
    ensures forall d :: ScoresOf(turns + [t], d) == ScoresOf(turns, d)
                                                   + if DomainOf(t) == d then [t.correctness] else []
    ensures forall d :: ScoresOf([], d) == []
  {
    assert (turns + [t])[..|turns|] == turns;
  }

  lemma NothingGrouped()
    ensures Grouped([], [], map[])
  {
  }

  // ----- any sequence of sessions -----

  /** A domain's row after a sequence of sessions. */
  function RowAfter(st: Storage, sessions: seq<seq<Turn>>, d: string): Option<Facts>
    decreases |sessions|
  {
    if sessions == [] then None
    else
      var before := RowAfter(st, sessions[..|sessions| - 1], d);
      var scores := ScoresOf(sessions[|sessions| - 1], d);
      if scores == [] then before else Some(Upsert(st, before, scores))
  }

  /** Every score the domain has ever had. */
  function AllScores(sessions: seq<seq<Turn>>, d: string): seq<real>
    decreases |sessions|
  {
    if sessions == [] then [] else AllScores(sessions[..|sessions| - 1], d) + ScoresOf(sessions[|sessions| - 1], d)
  }

  /** How many of the sessions had a score in the domain. */
  function Practised(sessions: seq<seq<Turn>>, d: string): nat
    decreases |sessions|
  {
    if sessions == [] then 0
    else Practised(sessions[..|sessions| - 1], d) + if ScoresOf(sessions[|sessions| - 1], d) == [] then 0 else 1
  }

  lemma {:induction false} Additive(s: seq<real>, t: seq<real>)
    ensures Sum(s + t) == Sum(s) + Sum(t)
    ensures CountCorrect(s + t) == CountCorrect(s) + CountCorrect(t)
    ensures CountWeak(s + t) == CountWeak(s) + CountWeak(t)
    decreases |t|
  {
    if t == [] {
      assert s + t == s;
    } else {
      assert (s + t)[..|s + t| - 1] == s + t[..|t| - 1];
      Additive(s, t[..|t| - 1]);
    }
  }

  lemma {:induction false} EveryScoreCounted(s: seq<real>)
    ensures CountCorrect(s) + CountWeak(s) == |s|
    decreases |s|
  {
    if s == [] {
    } else {
      EveryScoreCounted(s[..|s| - 1]);
    }
  }

  /** How far the average times the count may be from the sum of the scores. */
  function Drift(average: real, answered: nat, total: real): real {
    Scaled(average, answered) - total
  }

  function Allowance(st: Storage, sessions: nat, answered: nat): real {
    Scaled(Scaled(Epsilon(st), sessions), answered)
  }

  ghost predicate Within(x: real, bound: real) {
    -bound <= x <= bound
  }

  lemma MeanTimesCount(s: seq<real>)
    requires s != []
    ensures Scaled(Mean(s), |s|) == Sum(s)
  {
  }

  lemma BlendTimesCount(average: real, answered: nat, mean: real, count: nat)
    requires count > 0
    ensures Scaled(Blend(average, answered, mean, count), answered + count) ==
            Scaled(average, answered) + Scaled(mean, count)
  {
  }

  lemma ScaledNear(x: real, y: real, unit: real, n: nat)
    requires Within(x - y, unit)
    ensures Within(Scaled(x, n) - Scaled(y, n), Scaled(unit, n))
  {
    assert Scaled(x, n) - Scaled(y, n) == (x - y) * n as real;
  }

  lemma AllowanceGrows(st: Storage, sessions: nat, answered: nat, count: nat)
    ensures Allowance(st, sessions, answered) + Scaled(Epsilon(st), answered + count)
            <= Allowance(st, sessions + 1, answered + count)
    ensures Allowance(st, 1, count) == Scaled(Epsilon(st), count)
  {
    var k := Scaled(Epsilon(st), sessions);
    assert k * answered as real <= k * (answered + count) as real;
    assert Scaled(Epsilon(st), sessions + 1) == k + Epsilon(st);
  }

  lemma FirstDrift(st: Storage, scores: seq<real>)
    requires scores != []
    ensures Within(Drift(Stored(st, Mean(scores)), |scores|, Sum(scores)), Allowance(st, 1, |scores|))
  {
    hide Scaled;
    hide Stored;
    hide Mean;
    var mean := Mean(scores);
    MeanTimesCount(scores);
    StoredNear(st, mean);
    ScaledNear(Stored(st, mean), mean, Epsilon(st), |scores|);
    AllowanceGrows(st, 0, 0, |scores|);
  }

  /** One more stored blend adds at most one rounding per question answered so far. */
  lemma NextDrift(st: Storage, sessions: nat, average: real, answered: nat, total: real, scores: seq<real>)
    requires scores != [] && Within(Drift(average, answered, total), Allowance(st, sessions, answered))
    ensures var next := Stored(st, Blend(average, answered, Mean(scores), |scores|));
            Within(Drift(next, answered + |scores|, total + Sum(scores)),
                   Allowance(st, sessions + 1, answered + |scores|))
  {
    hide Scaled;
    hide Stored;
    hide Mean;
    hide Blend;
    hide Allowance;
    var blend := Blend(average, answered, Mean(scores), |scores|);
    MeanTimesCount(scores);
    BlendTimesCount(average, answered, Mean(scores), |scores|);
    StoredNear(st, blend);
    ScaledNear(Stored(st, blend), blend, Epsilon(st), answered + |scores|);
    AllowanceGrows(st, sessions, answered, |scores|);
  }

  /** Counts, sessions and, up to storage rounding, the average of a domain's row. */
  ghost predicate Accounts(st: Storage, row: Option<Facts>, scores: seq<real>) {
    match row
    case None => scores == []
    case Some(f) =>
      && f.answered == |scores| > 0
      && f.correct == CountCorrect(scores) && f.weak == CountWeak(scores) && f.correct + f.weak == f.answered
      && f.average.Some?
      && Within(Drift(f.average.value, f.answered, Sum(scores)), Allowance(st, f.sessions, f.answered))
  }

  lemma UpsertAccounts(st: Storage, row: Option<Facts>, scores: seq<real>, more: seq<real>)
    requires Accounts(st, row, scores) && more != []
    ensures Accounts(st, Some(Upsert(st, row, more)), scores + more)
  {
    hide Stored;
    hide Blend;
    hide Mean;
    hide Drift;
    hide Allowance;
    hide Sm2Update;
    hide Sum;
    hide CountCorrect;
    hide CountWeak;
    hide Epsilon;
    Additive(scores, more);
    EveryScoreCounted(scores + more);
    if row.None? {
      assert scores + more == more;
      FirstDrift(st, more);
    } else {
      NextDrift(st, row.value.sessions, row.value.average.value, row.value.answered, Sum(scores), more);
    }
  }

  /** After any sessions: correct plus weak answers are all the answers, and average times count is
      the sum of every score, to within one rounding unit of the column per session and question. */
  lemma {:induction false} RowAccounts(st: Storage, sessions: seq<seq<Turn>>, d: string)
    ensures Accounts(st, RowAfter(st, sessions, d), AllScores(sessions, d))
    ensures RowAfter(st, sessions, d).Some? ==> RowAfter(st, sessions, d).value.sessions == Practised(sessions, d)
    ensures RowAfter(st, sessions, d).None? ==> Practised(sessions, d) == 0
    decreases |sessions|
  {
    if sessions == [] {
    } else {
      var before := sessions[..|sessions| - 1];
      var scores := ScoresOf(sessions[|sessions| - 1], d);
      RowAccounts(st, before, d);
      if scores == [] {
        assert AllScores(sessions, d) == AllScores(before, d);
      } else {
        UpsertAccounts(st, RowAfter(st, before, d), AllScores(before, d), scores);
      }
    }
  }

  /** The spaced-repetition columns keep their bounds throughout. */
  lemma {:induction false} ReviewHealthy(st: Storage, sessions: seq<seq<Turn>>, d: string)
    ensures RowAfter(st, sessions, d).Some? ==> HealthyReview(RowAfter(st, sessions, d).value.review)
    decreases |sessions|
  {
    if sessions == [] {
    } else {
      var before := sessions[..|sessions| - 1];
      var scores := ScoresOf(sessions[|sessions| - 1], d);
      ReviewHealthy(st, before, d);
      if scores != [] {
        var row := RowAfter(st, before, d);
        Sm2Step(st, if row.None? then NEW_REVIEW else row.value.review, Mean(scores) * 5.0);
      }
    }
  }

  /** So the stored average is within one rounding unit per session of the true mean. */
  lemma {:induction false} AverageNearMean(st: Storage, sessions: seq<seq<Turn>>, d: string)
    requires AllScores(sessions, d) != []
    ensures RowAfter(st, sessions, d).Some? && RowAfter(st, sessions, d).value.average.Some?
    ensures var f := RowAfter(st, sessions, d).value;
            Within(f.average.value - Mean(AllScores(sessions, d)), Scaled(Epsilon(st), f.sessions))
  {
    RowAccounts(st, sessions, d);
    var f := RowAfter(st, sessions, d).value;
    MeanTimesCount(AllScores(sessions, d));
    Shrink(f.average.value, Mean(AllScores(sessions, d)), Scaled(Epsilon(st), f.sessions), f.answered);
  }

  lemma Shrink(x: real, y: real, unit: real, n: nat)
    requires n > 0 && Within(Scaled(x, n) - Scaled(y, n), Scaled(unit, n))
    ensures Within(x - y, unit)
  {
    assert (x - y - unit) * n as real == Scaled(x, n) - Scaled(y, n) - Scaled(unit, n);
    assert (y - x - unit) * n as real == Scaled(y, n) - Scaled(x, n) - Scaled(unit, n);
    Sign(x - y - unit, n as real);
    Sign(y - x - unit, n as real);
  }

  lemma Sign(z: real, m: real)
    requires 0.0 < m && z * m <= 0.0
    ensures z <= 0.0
  {
  }

  /** The mutable table follows the rows, session by session. */
  lemma TableFollowsRows(st: Storage, sessions: seq<seq<Turn>>, turns: seq<Turn>, before: map<string, Facts>,
          after: map<string, Facts>)
    requires forall d :: RowOf(before, d) == RowAfter(st, sessions, d)
    requires UpdatedBy(st, before, turns, after)
    ensures forall d :: RowOf(after, d) == RowAfter(st, sessions + [turns], d)
  {
    assert (sessions + [turns])[..|sessions|] == sessions;
  }

  // ----- exactly when the stored average is the mean -----

  /** The column can hold `x`: it does not round, or `x` has at most four decimals. */
  ghost predicate Representable(st: Storage, x: real) {
    st == Exact || (x * 10000.0).Floor as real == x * 10000.0
  }

  lemma StoredUnchangedIff(st: Storage, x: real)
    ensures Stored(st, x) == x <==> Representable(st, x)
  {
    var y := x * 10000.0;
    assert st == FourDecimals ==> Stored(st, x) * 10000.0 == (y + 0.5).Floor as real;
  }

  /** The row's average is the mean of all the scores there have been. */
  ghost predicate AverageIsMean(st: Storage, sessions: seq<seq<Turn>>, d: string) {
    AllScores(sessions, d) != [] ==>
      RowAfter(st, sessions, d).Some? && RowAfter(st, sessions, d).value.average == Some(Mean(AllScores(sessions, d)))
  }

  ghost predicate MeanFits(st: Storage, sessions: seq<seq<Turn>>, d: string) {
    AllScores(sessions, d) != [] ==> Representable(st, Mean(AllScores(sessions, d)))
  }

  /** After every session so far the mean is one the column can hold. */
  ghost predicate MeansFit(st: Storage, sessions: seq<seq<Turn>>, d: string) {
    forall k :: 0 <= k <= |sessions| ==> MeanFits(st, sessions[..k], d)
  }

  lemma SameRatio(a: real, b: real, n: nat, total: real)
    requires n > 0 && Scaled(a, n) == total && Scaled(b, n) == total
    ensures a == b
  {
    assert (a - b) * n as real == 0.0;
  }

  /** Blending the two means gives the mean of all. */
  lemma BlendOfMeans(s: seq<real>, t: seq<real>)
    requires s != [] && t != []
    ensures Blend(Mean(s), |s|, Mean(t), |t|) == Mean(s + t)
  {
    hide *;
    MeanTimesCount(s);
    MeanTimesCount(t);
    MeanTimesCount(s + t);
    Additive(s, t);
    BlendTimesCount(Mean(s), |s|, Mean(t), |t|);
    SameRatio(Blend(Mean(s), |s|, Mean(t), |t|), Mean(s + t), |s + t|, Sum(s + t));
  }

  /** What one more session with scores stores, if the average before it was right. */
  lemma UpsertAverage(st: Storage, row: Option<Facts>, scores: seq<real>, more: seq<real>)
    requires Accounts(st, row, scores) && more != []
    requires row.Some? ==> row.value.average == Some(Mean(scores))
    ensures Upsert(st, row, more).average == Some(Stored(st, Mean(scores + more)))
  {
    hide Drift;
    hide Allowance;
    hide Sm2Update;
    hide Stored;
    hide Blend;
    hide Mean;
    if row.None? {
      assert scores + more == more;
    } else {
      BlendOfMeans(scores, more);
    }
  }

  lemma AverageStep(st: Storage, sessions: seq<seq<Turn>>, d: string)
    requires sessions != []
    requires AverageIsMean(st, sessions[..|sessions| - 1], d) && MeanFits(st, sessions[..|sessions| - 1], d)
    ensures AverageIsMean(st, sessions, d) <==> MeanFits(st, sessions, d)
  {
    var before := sessions[..|sessions| - 1];
    var scores := ScoresOf(sessions[|sessions| - 1], d);
    RowAccounts(st, before, d);
    hide ScoresOf;
    hide Stored;
    hide Mean;
    hide Upsert;
    hide Drift;
    hide Allowance;
    hide Representable;
    if scores == [] {
      assert AllScores(sessions, d) == AllScores(before, d);
    } else {
      UpsertAverage(st, RowAfter(st, before, d), AllScores(before, d), scores);
      StoredUnchangedIff(st, Mean(AllScores(sessions, d)));
    }
  }

  /** The stored average is the true mean after every session exactly when, after every session,
      the true mean has no more decimals than the column. */
  lemma {:induction false} AverageIsMeanIff(st: Storage, sessions: seq<seq<Turn>>, d: string)
    ensures (forall k :: 0 <= k <= |sessions| ==> AverageIsMean(st, sessions[..k], d)) <==> MeansFit(st, sessions, d)
    decreases |sessions|
  {
    hide AverageIsMean;
    hide MeanFits;
    if sessions == [] {
      NoSessions(st, d);
      assert sessions[..0] == [];
    } else {
      var before := sessions[..|sessions| - 1];
      AverageIsMeanIff(st, before, d);
      assert forall k :: 0 <= k <= |before| ==> sessions[..k] == before[..k];
      assert before[..|before|] == before && sessions[..|sessions|] == sessions;
      if MeansFit(st, before, d) {
        AverageStep(st, sessions, d);
      }
    }
  }

  lemma NoSessions(st: Storage, d: string)
    ensures AverageIsMean(st, [], d) && MeanFits(st, [], d)
  {
  }

  lemma LastAverage(st: Storage, sessions: seq<seq<Turn>>, d: string)
    requires MeansFit(st, sessions, d) && AllScores(sessions, d) != []
    ensures RowAfter(st, sessions, d).Some?
            && RowAfter(st, sessions, d).value.average == Some(Mean(AllScores(sessions, d)))
  {
    AverageIsMeanIff(st, sessions, d);
    assert sessions[..|sessions|] == sessions;
  }

  // ----- session order -----

  lemma TakeOut(t: seq<real>, i: nat)
    requires i < |t|
    ensures var rest := t[..i] + t[i + 1..];
            && multiset(t) == multiset(rest) + multiset{t[i]}
            && Sum(t) == Sum(rest) + t[i]
            && CountCorrect(t) == CountCorrect(rest) + (if t[i] >= 0.5 then 1 else 0)
            && CountWeak(t) == CountWeak(rest) + (if t[i] < 0.5 then 1 else 0)
  {
    var one := t[..i + 1];
    assert t == one + t[i + 1..] && one == t[..i] + [t[i]] && one[..i] == t[..i];
    Additive(t[..i], t[i + 1..]);
    Additive(one, t[i + 1..]);
  }

  lemma {:induction false} OnlyTheMultisetMatters(s: seq<real>, t: seq<real>)
    requires multiset(s) == multiset(t)
    ensures Sum(s) == Sum(t) && CountCorrect(s) == CountCorrect(t) && CountWeak(s) == CountWeak(t) && |s| == |t|
    decreases |s|
  {
    hide Sum;
    hide CountCorrect;
    hide CountWeak;
    assert |s| == |multiset(s)| == |multiset(t)| == |t|;
    if s == [] {
      assert t == [];
    } else {
      var x := s[|s| - 1];
      assert x in multiset(t);
      var i :| 0 <= i < |t| && t[i] == x;
      TakeOut(s, |s| - 1);
      TakeOut(t, i);
      var s', t' := s[..|s| - 1] + s[|s|..], t[..i] + t[i + 1..];
      Cancel(multiset(s'), multiset(t'), x);
      OnlyTheMultisetMatters(s', t');
    }
  }

  lemma Cancel(a: multiset<real>, b: multiset<real>, x: real)
    requires a + multiset{x} == b + multiset{x}
    ensures a == b
  {
    assert a == a + multiset{x} - multiset{x} == b + multiset{x} - multiset{x} == b;
  }

  /** The same answers give the same counts, however they fall into sessions and in whatever
      order the sessions come; and the same average, if no mean on either way needed rounding. */
  lemma {:induction false} OrderIrrelevantWhenMeansFit(st: Storage, h: seq<seq<Turn>>, g: seq<seq<Turn>>, d: string)
    requires multiset(AllScores(h, d)) == multiset(AllScores(g, d))
    ensures var r, q := RowAfter(st, h, d), RowAfter(st, g, d);
            && r.Some? == q.Some?
            && (r.Some? ==> r.value.answered == q.value.answered && r.value.correct == q.value.correct
                            && r.value.weak == q.value.weak)
            && (r.Some? && MeansFit(st, h, d) && MeansFit(st, g, d) ==> r.value.average == q.value.average)
  {
    RowAccounts(st, h, d);
    RowAccounts(st, g, d);
    OnlyTheMultisetMatters(AllScores(h, d), AllScores(g, d));
    hide Drift;
    hide Allowance;
    hide Sum;
    hide CountCorrect;
    hide CountWeak;
    hide RowAfter;
    hide AllScores;
    hide MeansFit;
    if AllScores(h, d) != [] && MeansFit(st, h, d) && MeansFit(st, g, d) {
      LastAverage(st, h, d);
      LastAverage(st, g, d);
    }
  }

  /** An exact column never needs to round. */
  lemma {:induction false} OrderIrrelevantWhenExact(h: seq<seq<Turn>>, g: seq<seq<Turn>>, d: string)
    requires multiset(AllScores(h, d)) == multiset(AllScores(g, d))
    ensures var r, q := RowAfter(Exact, h, d), RowAfter(Exact, g, d);
            && r.Some? == q.Some?
            && (r.Some? ==> r.value.answered == q.value.answered && r.value.correct == q.value.correct
                            && r.value.weak == q.value.weak && r.value.average == q.value.average)
  {
    OrderIrrelevantWhenMeansFit(Exact, h, g, d);
  }

  lemma SumOfThree(x: real, y: real, z: real)
    ensures Sum([x, y, z]) == x + y + z
  {
    assert [x, y, z][..2] == [x, y] && [x, y][..1] == [x] && [x][..0] == [];
    assert Sum([x]) == x;
    assert Sum([x, y]) == x + y;
  }

  /** With four stored decimals it is not: two-thirds and then zero rounds differently from zero
      and then two-thirds. */
  lemma OrderMattersWhenRounded()
    ensures Upsert(FourDecimals, Some(Upsert(FourDecimals, None, [1.0, 1.0, 0.0])), [0.0, 0.0, 0.0]).average ==
            Some(0.3334)
    ensures Upsert(FourDecimals, Some(Upsert(FourDecimals, None, [0.0, 0.0, 0.0])), [1.0, 1.0, 0.0]).average ==
            Some(0.3333)
  {
    var a, b := [1.0, 1.0, 0.0], [0.0, 0.0, 0.0];
    SumOfThree(1.0, 1.0, 0.0);
    SumOfThree(0.0, 0.0, 0.0);
    assert Mean(a) == 2.0 / 3.0 && Mean(b) == 0.0;
    var x := Mean(a) * 10000.0 + 0.5;
    assert x.Floor == 6667;
    assert Stored(FourDecimals, Mean(a)) == 0.6667 && Stored(FourDecimals, 0.0) == 0.0;
    assert Blend(0.6667, 3, 0.0, 3) == 0.33335;
    assert Blend(0.0, 3, 2.0 / 3.0, 3) == 1.0 / 3.0;
    assert Stored(FourDecimals, 0.33335) == 0.3334;
    var y := (1.0 / 3.0) * 10000.0 + 0.5;
    assert y.Floor == 3333;
  }

  // ----- one session, in numbers -----

  /** A turn's score goes to the domain it names, and to "general" if it names none. */
  lemma ScoreGoesTo(turns: seq<Turn>, t: Turn, d: string)
    ensures ScoresOf(turns + [t], d) ==
            ScoresOf(turns, d)
            + if (t.domain == Some(d) && d != "") || (d == "general" && (t.domain == None || t.domain == Some("")))
              then [t.correctness] else []
  {
    ScoresSnoc(turns, t);
  }

  /** Scores of a half and more count as correct, the others as weak. */
  lemma {:induction false} CountsByHalf(s: seq<real>)
    ensures CountCorrect(s) == |set i | 0 <= i < |s| && s[i] >= 0.5|
    ensures CountWeak(s) == |set i | 0 <= i < |s| && s[i] < 0.5|
    decreases |s|
  {
    if s == [] {
    } else {
      var t := s[..|s| - 1];
      CountsByHalf(t);
      var correct, weak := (set i | 0 <= i < |t| && t[i] >= 0.5), (set i | 0 <= i < |t| && t[i] < 0.5);
      if s[|t|] >= 0.5 {
        assert (set i | 0 <= i < |s| && s[i] >= 0.5) == correct + {|t|};
        assert (set i | 0 <= i < |s| && s[i] < 0.5) == weak;
      } else {
        assert (set i | 0 <= i < |s| && s[i] >= 0.5) == correct;
        assert (set i | 0 <= i < |s| && s[i] < 0.5) == weak + {|t|};
      }
    }
  }

  /** The ease after recall `q`: it moves by -0.8 + 0.28q - 0.02q^2, between 1.3 and 3.5. */
  function MovedEase(ease: real, q: real): real {
    var moved := ease - 0.8 + 0.28 * q - 0.02 * q * q;
    if moved < 1.3 then 1.3 else if moved > 3.5 then 3.5 else moved
  }

  /** A review with recall `q`, failed below 3. The first two successes give one day and six, later
      ones the interval times the unrounded ease to the nearest day. */
  lemma ReviewMoves(st: Storage, r: Review, q: real)
    ensures var t := Sm2Update(st, r, q);
            && t.ease == Stored(st, MovedEase(r.ease, q))
            && (q < 3.0 ==> t.interval == 1 && t.repetitions == 0)
            && (q >= 3.0 ==> t.repetitions == r.repetitions + 1)
            && (q >= 3.0 && r.repetitions == 0 ==> t.interval == 1)
            && (q >= 3.0 && r.repetitions == 1 ==> t.interval == 6)
    ensures q >= 3.0 && r.repetitions >= 2 ==>
              var exact := SM2.Stretched(r.interval as real, MovedEase(r.ease, q));
              exact - 0.5 <= Sm2Update(st, r, q).interval as real <= exact + 0.5
  {
    hide SM2.Round;
    hide SM2.Stretched;
    hide Stored;
    hide Eased;
    hide MovedEase;
    EaseExpanded(r.ease, q);
    SM2.RoundNear(SM2.Stretched(r.interval as real, Eased(r.ease, q)));
  }

  lemma EaseExpanded(ease: real, q: real)
    ensures Eased(ease, q) == MovedEase(ease, q)
  {
    assert (5.0 - q) * (0.08 + (5.0 - q) * 0.02) == 0.9 - 0.28 * q + 0.02 * q * q;
  }

  /** A domain's row changes in a session exactly by its scores there: counts add up, sessions go up by
      one, and the review follows the session's own mean. */
  lemma RowMoves(st: Storage, sessions: seq<seq<Turn>>, turns: seq<Turn>, d: string)
    requires ScoresOf(turns, d) != []
    ensures var before, after := RowAfter(st, sessions, d), RowAfter(st, sessions + [turns], d);
            var scores := ScoresOf(turns, d);
            && after.Some?
            && after.value.review == Sm2Update(st, if before.Some? then before.value.review else Review(1, 2.5, 0),
                                               Sum(scores) / |scores| as real * 5.0)
            && after.value.sessions == (if before.Some? then before.value.sessions else 0) + 1
  {
    assert (sessions + [turns])[..|sessions|] == sessions;
    hide Sm2Update;
  }

  lemma RowStays(st: Storage, sessions: seq<seq<Turn>>, turns: seq<Turn>, d: string)
    requires ScoresOf(turns, d) == []
    ensures RowAfter(st, sessions + [turns], d) == RowAfter(st, sessions, d)
  {
    assert (sessions + [turns])[..|sessions|] == sessions;
  }

  /** The column keeps the nearest ten-thousandth, the larger one in between. */
  lemma StoredNearest(x: real)
    ensures var k := Stored(FourDecimals, x) * 10000.0;
            k == k.Floor as real && k - 0.5 <= x * 10000.0 < k + 0.5
  {
    var f := (x * 10000.0 + 0.5).Floor;
    assert Stored(FourDecimals, x) * 10000.0 == f as real;
  }
}
