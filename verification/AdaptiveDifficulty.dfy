/** Difficulty of the next question, adjusted after every scored answer. Levels are exact:
    all steps are whole hundredths. */
module AdaptiveDifficulty {
  import opened Options

  const MIN_LEVEL := 0.10
  const MAX_LEVEL := 0.95
  const STEP_UP := 0.08
  const STEP_DOWN := 0.12
  const DOUBLE_STEP_UP := 0.15
  const DEPTH_THRESHOLD := 0.65
  const CORRECT_THRESHOLD := 0.60

  datatype Turn = Turn(correctness: real, specificity: real, structure: real) {
    function Depth(): real {
      (specificity + structure) / 2.0
    }

    predicate Correct() {
      correctness >= CORRECT_THRESHOLD
    }

    predicate Deep() {
      Depth() >= DEPTH_THRESHOLD
    }
  }

  datatype Row = Row(level: real, asked: nat, correctStreak: nat, incorrectStreak: nat)

  const FIRST := Row(0.5, 0, 0, 0)

  function NextDifficulty(level: real, t: Turn, correctStreak: nat, incorrectStreak: nat): (real, nat, nat) {
    if t.Correct() && t.Deep() then
      var streak := correctStreak + 1;
      var raised := level + if streak >= 2 then DOUBLE_STEP_UP else STEP_UP;
      (if raised < MAX_LEVEL then raised else MAX_LEVEL, streak, 0)
    else if t.Correct() then (level, correctStreak + 1, 0)
    else
      var lowered := level - STEP_DOWN;
      (if lowered > MIN_LEVEL then lowered else MIN_LEVEL, 0, incorrectStreak + 1)
  }

  function Adjusted(r: Row, t: Turn): Row {
    var (level, correct, incorrect) := NextDifficulty(r.level, t, r.correctStreak, r.incorrectStreak);
    Row(level, r.asked + 1, correct, incorrect)
  }

  class SessionDifficulty {
    var row: Option<Row>

    constructor ()
      ensures row == None
    {
      row := None;
    }

    method RecordTurn(t: Turn) returns (newLevel: real)
      modifies this
      ensures row == Some(Adjusted(if old(row).Some? then old(row).value else FIRST, t))
      ensures newLevel == row.value.level
    {
      var current, asked, correct, incorrect := 0.5, 0, 0, 0;
      if row.Some? {
        current, asked, correct, incorrect := row.value.level, row.value.asked, row.value.correctStreak,
            row.value.incorrectStreak;
      }
      var (level, newCorrect, newIncorrect) := NextDifficulty(current, t, correct, incorrect);
      row := Some(Row(level, asked + 1, newCorrect, newIncorrect));
      newLevel := level;
    }
  }

  /** The row after a session's turns. */
  function After(turns: seq<Turn>): Row
    decreases |turns|
  {
    if turns == [] then FIRST else Adjusted(After(turns[..|turns| - 1]), turns[|turns| - 1])
  }

  function TrailingCorrect(turns: seq<Turn>): nat
    decreases |turns|
  {
    if turns == [] || !turns[|turns| - 1].Correct() then 0 else 1 + TrailingCorrect(turns[..|turns| - 1])
  }

  function TrailingIncorrect(turns: seq<Turn>): nat
    decreases |turns|
  {
    if turns == [] || turns[|turns| - 1].Correct() then 0 else 1 + TrailingIncorrect(turns[..|turns| - 1])
  }

  /** In every session the level stays in range and the streaks count the latest answers, so one
      of them is zero. */
  lemma {:induction false} LevelInRange(turns: seq<Turn>)
    ensures MIN_LEVEL <= After(turns).level <= MAX_LEVEL && After(turns).asked == |turns|
    ensures After(turns).correctStreak == TrailingCorrect(turns)
            && After(turns).incorrectStreak == TrailingIncorrect(turns)
    ensures After(turns).correctStreak == 0 || After(turns).incorrectStreak == 0
    decreases |turns|
  {
    if turns == [] {
    } else {
      LevelInRange(turns[..|turns| - 1]);
    }
  }

  /** Incorrect, correct but shallow, correct and deep. */
  function Grade(t: Turn): int {
    if !t.Correct() then 0 else if !t.Deep() then 1 else 2
  }

  ghost predicate AtLeastAsGood(a: seq<Turn>, b: seq<Turn>) {
    |a| == |b| && forall i :: 0 <= i < |a| ==> Grade(a[i]) >= Grade(b[i])
  }

  /** Better answers never bring an easier question, at any turn. */
  lemma {:induction false} BetterAnswersNeverEasier(a: seq<Turn>, b: seq<Turn>, n: nat)
    requires AtLeastAsGood(a, b) && n <= |a|
    ensures After(a[..n]).level >= After(b[..n]).level
    ensures After(a[..n]).correctStreak >= After(b[..n]).correctStreak
  {
    if n == 0 {
    } else {
      BetterAnswersNeverEasier(a, b, n - 1);
      assert a[..n][..n - 1] == a[..n - 1] && b[..n][..n - 1] == b[..n - 1];
      assert Grade(a[n - 1]) >= Grade(b[n - 1]);
      LevelInRange(a[..n - 1]);
      LevelInRange(b[..n - 1]);
    }
  }

  /** In particular raising any of the three scores of any answers cannot lower the level. */
  lemma HigherScoresNeverEasier(a: seq<Turn>, b: seq<Turn>, n: nat)
    requires |a| == |b| && n <= |a|
    requires forall i :: 0 <= i < |a| ==>
               a[i].correctness >= b[i].correctness && a[i].specificity >= b[i].specificity
               && a[i].structure >= b[i].structure
    ensures After(a[..n]).level >= After(b[..n]).level
  {
    BetterAnswersNeverEasier(a, b, n);
  }

  /** Deep answers from the start climb by one single and then double steps, to the ceiling. */
  lemma {:induction false} DeepRun(turns: seq<Turn>)
    requires turns != [] && forall i :: 0 <= i < |turns| ==> Grade(turns[i]) == 2
    ensures var target := 0.5 + STEP_UP + (|turns| - 1) as real * DOUBLE_STEP_UP;
            After(turns).level == if target < MAX_LEVEL then target else MAX_LEVEL
    decreases |turns|
  {
    var before := turns[..|turns| - 1];
    if before == [] {
    } else {
      DeepRun(before);
      LevelInRange(before);
      assert Grade(before[|before| - 1]) == 2;
    }
    assert Grade(turns[|turns| - 1]) == 2;
  }

  /** Incorrect answers from the start fall by single steps, to the floor. */
  lemma {:induction false} IncorrectRun(turns: seq<Turn>)
    requires forall i :: 0 <= i < |turns| ==> Grade(turns[i]) == 0
    ensures var target := 0.5 - |turns| as real * STEP_DOWN;
            After(turns).level == if target > MIN_LEVEL then target else MIN_LEVEL
    decreases |turns|
  {
    if turns == [] {
    } else {
      IncorrectRun(turns[..|turns| - 1]);
      assert Grade(turns[|turns| - 1]) == 0;
    }
  }

  /** The larger jump needs only a correct answer before the deep one, not a deep one: the rise is
      the double step, up to the ceiling, exactly when the previous answer was correct. From the
      level where the single step meets the ceiling the two are the same. */
  lemma DoubleStepIff(turns: seq<Turn>, t: Turn)
    requires t.Correct() && t.Deep() && After(turns).level + STEP_UP < MAX_LEVEL
    ensures var double := After(turns).level + DOUBLE_STEP_UP;
            After(turns + [t]).level == (if double < MAX_LEVEL then double else MAX_LEVEL)
            <==> turns != [] && turns[|turns| - 1].Correct()
  {
    assert (turns + [t])[..|turns|] == turns;
    LevelInRange(turns);
  }

  /** One answer in numbers. Below 0.60 correct the next question is 0.12 easier, down to 0.10. From
      there on, and if specificity and structure average less than 0.65, it stays where it is.
      Otherwise it is 0.08 harder, or 0.15 after another correct answer, up to 0.95. */
  lemma LevelAfter(turns: seq<Turn>, t: Turn)
    ensures var before, after := After(turns).level, After(turns + [t]).level;
            var again := turns != [] && turns[|turns| - 1].correctness >= 0.60;
            var harder := before + if again then 0.15 else 0.08;
            after == if t.correctness < 0.60 then (if before - 0.12 < 0.10 then 0.10 else before - 0.12)
                    else if t.specificity + t.structure < 1.30 then before
                    else if harder > 0.95 then 0.95 else harder
  {
    assert (turns + [t])[..|turns|] == turns;
    LevelInRange(turns);
  }
}
