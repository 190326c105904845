/** SM-2 scheduling of study items, with the two roundings between the formula and the stored
    row. Ease and intervals are exact; a stored 0 stands for NULL as well. */
module SpacedRepetition {
  import opened Options

  /** Python's `round`: to the nearest integer, halves to the even one. */
  function Round(x: real): int {
    var f := x.Floor;
    var d := x - f as real;
    if d < 0.5 || (d == 0.5 && f % 2 == 0) then f else f + 1
  }

  function RoundTo(x: real, scale: int): real
    requires scale > 0
  {
    Round(x * scale as real) as real / scale as real
  }

  function Max(x: real, y: real): real {
    if x < y then y else x
  }

  // ----- the formula -----

  datatype Schedule = Schedule(interval: real, repetitions: int, ease: real)

  function Adjustment(quality: int): real {
    0.1 - (5 - quality) as real * (0.08 + (5 - quality) as real * 0.02)
  }

  function Stretched(interval: real, ease: real): real {
    interval * ease
  }

  /** `calculate_sm2`; None is its ValueError. */
  function CalculateSm2(quality: int, repetitions: int, previousInterval: real, previousEase: real): Option<Schedule> {
    if quality < 0 || quality > 5 then None
    else
      var ease := Max(1.3, previousEase + Adjustment(quality));
      var reps := if quality < 3 then 0 else repetitions + 1;
      var interval :=
        if quality < 3 || reps == 1 then 1.0
        else if reps == 2 then 6.0
        else Stretched(previousInterval, ease);
      Some(Schedule(RoundTo(interval, 100), reps, RoundTo(ease, 1000)))
  }

  // ----- the stored item -----

  datatype Row = Row(ease: real, interval: int, repetitions: int)

  const NEW_ITEM := Row(2.5, 1, 0)

  function Reviewed(r: Row, quality: int): Row {
    var interval := if r.interval == 0 then 1.0 else r.interval as real;
    match CalculateSm2(quality, r.repetitions, interval, if r.ease == 0.0 then 2.5 else r.ease)
    case None => r
    case Some(s) => Row(s.ease, if Round(s.interval) < 1 then 1 else Round(s.interval), s.repetitions)
  }

  class StudyItem {
    var easeFactor: real
    var intervalDays: int
    var repetitions: int
    var nextReviewAt: int

    function View(): Row
      reads this
    {
      Row(easeFactor, intervalDays, repetitions)
    }

    constructor ()
      ensures View() == NEW_ITEM
    {
      easeFactor, intervalDays, repetitions, nextReviewAt := 2.5, 1, 0, 0;
    }

    /** `review_item`, with the current day; a quality outside 0..5 raises and changes nothing. */
    method ReviewItem(quality: int, today: int) returns (ok: bool)
      modifies this
      ensures ok <==> 0 <= quality <= 5
      ensures View() == Reviewed(old(View()), quality)
      ensures nextReviewAt == if ok then today + intervalDays else old(nextReviewAt)
    {
      var previousInterval := if intervalDays == 0 then 1.0 else intervalDays as real;
      var previousEase := if easeFactor == 0.0 then 2.5 else easeFactor;
      var schedule := CalculateSm2(quality, repetitions, previousInterval, previousEase);
      if schedule.None? {
        return false;
      }
      var days := Round(schedule.value.interval);
      if days < 1 {
        days := 1;
      }
      easeFactor := schedule.value.ease;
      intervalDays := days;
      repetitions := schedule.value.repetitions;
      nextReviewAt := today + days;
      ok := true;
    }
  }

  // ----- rounding -----

  lemma RoundNear(x: real)
    ensures x - 0.5 <= Round(x) as real <= x + 0.5
  {
  }

  lemma RoundMonotone(x: real, y: real)
    requires x <= y
    ensures Round(x) <= Round(y)
  {
    if x.Floor == y.Floor {
    } else {
      assert x.Floor + 1 <= y.Floor;
    }
  }

  lemma RoundInteger(n: int)
    ensures Round(n as real) == n
  {
  }

  function Fiftieths(k: int): real {
    k as real / 50.0
  }

  /** Rounding to hundredths or thousandths leaves multiples of 1/50 alone. */
  lemma OnGrid(k: int, scale: int)
    requires scale == 100 || scale == 1000
    ensures RoundTo(Fiftieths(k), scale) == Fiftieths(k)
  {
    var x := Fiftieths(k);
    if scale == 100 {
      assert x * 100.0 == (2 * k) as real;
      RoundInteger(2 * k);
    } else {
      assert x * 1000.0 == (20 * k) as real;
      RoundInteger(20 * k);
    }
  }

  /** Even the least ease, after rounding, grows an interval of six or more by a quarter. */
  lemma GrowsByQuarter(n: int, ease: real)
    requires n >= 6 && ease >= 1.3
    ensures 4 * Round(Stretched(n as real, ease)) >= 5 * n
  {
    var least := n as real * 1.3;
    assert least <= Stretched(n as real, ease);
    RoundMonotone(least, Stretched(n as real, ease));
    if n >= 10 {
      hide Round;
      RoundNear(least);
    } else {
      SmallIntervals();
      hide Round;
      assert n == 6 || n == 7 || n == 8 || n == 9;
    }
  }

  lemma SmallIntervals()
    ensures Round(7.8) == 8 && Round(9.1) == 9 && Round(10.4) == 10 && Round(11.7) == 12
  {
    assert (7.8).Floor == 7 && (9.1).Floor == 9 && (10.4).Floor == 10 && (11.7).Floor == 11;
  }

  // ----- every review history of a new item -----

  function History(qualities: seq<int>): Row
    decreases |qualities|
  {
    if qualities == [] then NEW_ITEM else Reviewed(History(qualities[..|qualities| - 1]), qualities[|qualities| - 1])
  }

  ghost predicate OnFiftieths(x: real) {
    exists k :: x == Fiftieths(k)
  }

  ghost predicate Healthy(r: Row) {
    && r.ease >= 1.3 && OnFiftieths(r.ease)
    && r.interval >= 1 && r.repetitions >= 0
    && (r.repetitions == 1 ==> r.interval == 1)
    && (r.repetitions >= 2 ==> r.interval >= 6)
  }

  lemma EaseStaysOnGrid(ease: real, quality: int)
    requires OnFiftieths(ease) && 0 <= quality <= 5
    ensures OnFiftieths(Max(1.3, ease + Adjustment(quality))) && Max(1.3, ease + Adjustment(quality)) >= 1.3
    ensures RoundTo(Max(1.3, ease + Adjustment(quality)), 1000) == Max(1.3, ease + Adjustment(quality))
  {
    var k :| ease == Fiftieths(k);
    var steps := [-40, -27, -16, -7, 0, 5];
    assert Adjustment(quality) == Fiftieths(steps[quality]);
    var l := if k + steps[quality] < 65 then 65 else k + steps[quality];
    assert Max(1.3, ease + Adjustment(quality)) == Fiftieths(l);
    OnGrid(l, 1000);
  }

  /** On integers of days the rounding to hundredths changes nothing. */
  lemma IntervalExact(n: int, ease: real)
    requires OnFiftieths(ease)
    ensures RoundTo(Stretched(n as real, ease), 100) == Stretched(n as real, ease)
  {
    var k :| ease == Fiftieths(k);
    assert n as real * (k as real / 50.0) == (n * k) as real / 50.0;
    assert Stretched(n as real, ease) == Fiftieths(n * k);
    OnGrid(n * k, 100);
  }

  lemma FixedIntervals()
    ensures RoundTo(1.0, 100) == 1.0 && Round(1.0) == 1
    ensures RoundTo(6.0, 100) == 6.0 && Round(6.0) == 6
  {
    RoundInteger(1);
    RoundInteger(6);
    OnGrid(50, 100);
    OnGrid(300, 100);
  }

  /** One review of a healthy row: what the two roundings leave of the formula. */
  lemma ReviewStep(r: Row, quality: int)
    requires Healthy(r) && 0 <= quality <= 5
    ensures var t := Reviewed(r, quality);
            && Healthy(t)
            && t.ease == Max(1.3, r.ease + Adjustment(quality))
            && (quality < 3 ==> t.repetitions == 0 && t.interval == 1)
            && (quality >= 3 ==> t.repetitions == r.repetitions + 1)
            && (quality >= 3 && r.repetitions >= 2 ==>
                  t.interval == Round(Stretched(r.interval as real, t.ease)) && 4 * t.interval >= 5 * r.interval)
            && (quality >= 3 && r.repetitions >= 1 ==> t.interval > r.interval)
  {
    EaseStaysOnGrid(r.ease, quality);
    FixedIntervals();
    hide Round;
    hide RoundTo;
    hide Adjustment;
    hide Max;
    hide OnFiftieths;
    hide Stretched;
    var ease := Max(1.3, r.ease + Adjustment(quality));
    if quality >= 3 && r.repetitions >= 2 {
      IntervalExact(r.interval, ease);
      GrowsByQuarter(r.interval, ease);
    }
  }

  /** Whatever the reviews, the row stays healthy: ease at least 1.3 and exactly on the grid,
      interval at least a day, and at least six from the second success in a row. */
  lemma {:induction false} HistoryHealthy(qualities: seq<int>)
    ensures Healthy(History(qualities))
    decreases |qualities|
  {
    if qualities == [] {
      assert 2.5 == Fiftieths(125);
    } else {
      var before := qualities[..|qualities| - 1];
      HistoryHealthy(before);
      if 0 <= qualities[|qualities| - 1] <= 5 {
        ReviewStep(History(before), qualities[|qualities| - 1]);
      }
    }
  }

  function Pow(b: nat, n: nat): nat {
    if n == 0 then 1 else b * Pow(b, n - 1)
  }

  /** The last `n` reviews of the history were successes. */
  ghost predicate SuccessRun(qualities: seq<int>, n: nat) {
    n <= |qualities| && forall i :: |qualities| - n <= i < |qualities| ==> 3 <= qualities[i] <= 5
  }

  lemma {:induction false} RunCounts(qualities: seq<int>, n: nat)
    requires SuccessRun(qualities, n)
    ensures History(qualities).repetitions >= n
    decreases n
  {
    HistoryHealthy(qualities);
    if n == 0 {
    } else {
      var before := qualities[..|qualities| - 1];
      RunCounts(before, n - 1);
      HistoryHealthy(before);
      ReviewStep(History(before), qualities[|qualities| - 1]);
    }
  }

  /** n >= 2 successes in a row give at least 6 * (5/4)^(n-2) days, in whole days. */
  lemma {:induction false} StreakGrows(qualities: seq<int>, n: nat)
    requires n >= 2 && SuccessRun(qualities, n)
    ensures History(qualities).interval * Pow(4, n - 2) >= 6 * Pow(5, n - 2)
    decreases n
  {
    RunCounts(qualities, n);
    HistoryHealthy(qualities);
    if n > 2 {
      var before := qualities[..|qualities| - 1];
      RunCounts(before, n - 1);
      StreakGrows(before, n - 1);
      HistoryHealthy(before);
      ReviewStep(History(before), qualities[|qualities| - 1]);
      ScaleUp(History(before).interval, History(qualities).interval, Pow(4, n - 3), Pow(5, n - 3));
    }
  }

  lemma ScaleUp(i: int, j: int, p: nat, q: nat)
    requires 4 * j >= 5 * i && i * p >= 6 * q
    ensures j * (4 * p) >= 6 * (5 * q)
  {
    assert j * (4 * p) == (4 * j) * p;
    assert (4 * j) * p >= (5 * i) * p;
    assert (5 * i) * p == 5 * (i * p);
  }

  /** From the second success in a row on, each success lengthens the interval. */
  lemma {:induction false} EachSuccessLengthens(qualities: seq<int>)
    requires SuccessRun(qualities, 2)
    ensures History(qualities).interval > History(qualities[..|qualities| - 1]).interval
  {
    var before := qualities[..|qualities| - 1];
    RunCounts(before, 1);
    HistoryHealthy(before);
    ReviewStep(History(before), qualities[|qualities| - 1]);
  }

  // ----- the numbers of one review -----

  /** The ease moves by a fixed amount for each quality, and never below 1.3. */
  lemma EaseMoves(r: Row, quality: int)
    requires Healthy(r) && 0 <= quality <= 5
    ensures var moved := r.ease + [-0.80, -0.54, -0.32, -0.14, 0.00, 0.10][quality];
            Reviewed(r, quality).ease == if moved < 1.3 then 1.3 else moved
  {
    ReviewStep(r, quality);
    assert Adjustment(quality) == [-0.80, -0.54, -0.32, -0.14, 0.00, 0.10][quality];
    hide Reviewed;
  }

  /** The first success gives one day, the second six, and later ones the interval times the new
      ease, to the nearest day and to the even one in between; below 3 it is one day again. */
  lemma IntervalMoves(r: Row, quality: int)
    requires Healthy(r) && 0 <= quality <= 5
    ensures var t := Reviewed(r, quality);
            && (quality < 3 || r.repetitions == 0 ==> t.interval == 1)
            && (quality >= 3 && r.repetitions == 1 ==> t.interval == 6)
            && (quality >= 3 && r.repetitions >= 2 ==>
                  var exact := r.interval as real * t.ease;
                  && exact - 0.5 <= t.interval as real <= exact + 0.5
                  && (t.interval as real - exact == 0.5 || t.interval as real - exact == -0.5 ==> t.interval % 2 == 0))
  {
    ReviewStep(r, quality);
    FixedIntervals();
    var exact := Stretched(r.interval as real, Reviewed(r, quality).ease);
    RoundNear(exact);
    HalvesToEven(exact);
    hide Round;
    hide RoundTo;
    hide Adjustment;
    hide Max;
  }

  lemma HalvesToEven(x: real)
    ensures Round(x) as real - x == 0.5 || Round(x) as real - x == -0.5 ==> Round(x) % 2 == 0
  {
  }

  /** A stored null reads as the default: ease 2.5, interval one day. */
  lemma NullsAreDefaults(ease: real, interval: int, repetitions: int, quality: int)
    requires 0 <= quality <= 5
    ensures Reviewed(Row(0.0, interval, repetitions), quality) == Reviewed(Row(2.5, interval, repetitions), quality)
    ensures Reviewed(Row(ease, 0, repetitions), quality) == Reviewed(Row(ease, 1, repetitions), quality)
  {
  }
}
