/** The XP curve, multi-level XP gain and the maximum life per level
    (src/core/leveling.js). Every floating-point expression of the source is
    given as an exact integer formula; `XpMultiplier` keeps the rational form
    and the `...IsRounded` lemmas tie the two together. */
module Leveling {

  const BaseGoalXp := 100
  const DailyGoalsTarget := 4
  const XpLevelDivisor := 150

  datatype Progress = Progress(level: int, xp: int)

  /** What `addXp` returns: the new progress and every level reached, in order. */
  datatype LevelResult = LevelResult(progress: Progress, levelUps: seq<int>)

  /** `xpMultiplier(level) = 1 + level / 150`, as an exact rational. */
  function XpMultiplier(level: int): real {
    1.0 + (level as real) / (XpLevelDivisor as real)
  }

  /** JavaScript's `Math.round`: the integer nearest to `x`, halves rounded up. */
  function Round(x: real): int {
    (x + 0.5).Floor
  }

  /** `xpNeeded(level) = round(100 * 4 * level * xpMultiplier(level) * 1.20)`. */
  function XpNeeded(level: int): int {
    (32 * level * (150 + level) + 5) / 10
  }

  /** `round(base * xpMultiplier(level))`: what a base reward is worth at a level. */
  function ScaledXp(base: int, level: int): int {
    (2 * base * (150 + level) + 150) / 300
  }

  /** `lifeForLevel(level)`, with the level clamped to at least 1. */
  function LifeForLevel(level: int): int {
    var n := (if level < 1 then 1 else level) - 1;
    100 + 2 * n * n + 5 * n
  }

  /** The floor of a quotient of integers, as a real, is integer division. */
  lemma FloorOfQuotient(a: int, d: int)
    requires d > 0
    ensures ((a as real) / (d as real)).Floor == a / d
  {
    var q, r := a / d, a % d;
    assert a == q * d + r && 0 <= r < d;
    var x := (a as real) / (d as real);
    assert x == (q as real) + (r as real) / (d as real);
    assert 0.0 <= (r as real) / (d as real) < 1.0;
  }

  lemma XpNeededIsRounded(level: int)
    ensures XpNeeded(level) == Round(400.0 * (level as real) * XpMultiplier(level) * 1.20)
  {
    var x := level as real;
    var n := 32 * level * (150 + level) + 5;
    assert (n as real) == 4800.0 * x + 32.0 * x * x + 5.0;
    assert 400.0 * x * XpMultiplier(level) * 1.20 + 0.5 == (n as real) / 10.0;
    FloorOfQuotient(n, 10);
  }

  lemma ScaledXpIsRounded(base: int, level: int)
    ensures ScaledXp(base, level) == Round((base as real) * XpMultiplier(level))
  {
    var b, x := base as real, level as real;
    var n := 2 * base * (150 + level) + 150;
    assert (n as real) == 300.0 * b + 2.0 * b * x + 150.0;
    assert b * XpMultiplier(level) + 0.5 == (n as real) / 300.0;
    FloorOfQuotient(n, 300);
  }

  /** The XP a completed goal is worth, `(600 + 4L + 3) div 6`. */
  lemma GoalXpFormula(level: int)
    ensures ScaledXp(BaseGoalXp, level) == (600 + 4 * level + 3) / 6
  {
  }

  lemma XpNeededPositive(level: int)
    ensures level >= 1 ==> XpNeeded(level) >= 483
  {
    if level >= 1 {
      assert 32 * level * (150 + level) >= 32 * 151 by {
        assert level * (150 + level) >= 1 * 151;
      }
    }
  }

  lemma {:induction false} XpNeededStrictlyIncreasing(a: int, b: int)
    requires 1 <= a < b
    ensures 1 <= XpNeeded(a) < XpNeeded(b)
    decreases b - a
  {
    XpNeededPositive(a);
    var pa, pb := a * (150 + a), (a + 1) * (150 + a + 1);
    assert pb == pa + 151 + 2 * a;
    assert XpNeeded(a) < XpNeeded(a + 1);
    if a + 1 < b {
      XpNeededStrictlyIncreasing(a + 1, b);
    }
  }

  lemma {:induction false} LifeForLevelBounds(a: int, b: int)
    ensures a <= 1 ==> LifeForLevel(a) == 100
    ensures LifeForLevel(a) >= 100
    ensures 1 <= a < b ==> LifeForLevel(a) < LifeForLevel(b)
    decreases if a < b then b - a else 0
  {
    if a >= 1 {
      var n := a - 1;
      assert n * n >= 0;
    }
    if 1 <= a < b {
      var n := a - 1;
      assert LifeForLevel(a + 1) == LifeForLevel(a) + 4 * n + 7;
      if a + 1 < b {
        LifeForLevelBounds(a + 1, b);
      }
    }
  }

  /** Total XP needed to climb from level `lo` to level `hi`. */
  function SumNeeded(lo: int, hi: int): int
    decreases if lo < hi then hi - lo else 0
  {
    if lo < hi then XpNeeded(lo) + SumNeeded(lo + 1, hi) else 0
  }

  /** The measure under which the `addXp` loop terminates for every start level:
      below level 1 each iteration raises the level, from level 1 on it removes
      at least `XpNeeded(1)` XP. */
  function ClimbMeasure(level: int): nat {
    if level < 1 then 1 - level else 0
  }

  /** The result of the `addXp` loop started at `level` with `xp` accumulated. */
  function LevelsAfter(level: int, xp: int): LevelResult
    decreases ClimbMeasure(level), xp
  {
    if xp >= XpNeeded(level) then
      XpNeededPositive(level);
      var r := LevelsAfter(level + 1, xp - XpNeeded(level));
      LevelResult(r.progress, [level + 1] + r.levelUps)
    else LevelResult(Progress(level, xp), [])
  }

  /** The levels strictly above `lo` up to and including `hi`. */
  function LevelsBetween(lo: int, hi: int): (r: seq<int>)
    ensures lo <= hi ==> |r| == hi - lo
    decreases if lo < hi then hi - lo else 0
  {
    if lo < hi then [lo + 1] + LevelsBetween(lo + 1, hi) else []
  }

  /** Consecutive level ranges concatenate. */
  lemma {:induction false} LevelsBetweenAppend(lo: int, mid: int, hi: int)
    requires lo <= mid <= hi
    ensures LevelsBetween(lo, mid) + LevelsBetween(mid, hi) == LevelsBetween(lo, hi)
    decreases mid - lo
  {
    if lo < mid {
      var a, b := LevelsBetween(lo + 1, mid), LevelsBetween(mid, hi);
      LevelsBetweenAppend(lo + 1, mid, hi);
      assert LevelsBetween(lo, mid) == [lo + 1] + a;
      assert LevelsBetween(lo, hi) == [lo + 1] + (a + b);
      assert ([lo + 1] + a) + b == [lo + 1] + (a + b);
    } else {
      assert LevelsBetween(lo, mid) == [];
    }
  }

  /** The `addXp` loop stops below the next threshold, never lowers the level,
      reports exactly the levels passed, and conserves XP. */
  lemma {:induction false} LevelsAfterSpec(level: int, xp: int)
    ensures var r := LevelsAfter(level, xp);
      && r.progress.level >= level
      && r.progress.xp < XpNeeded(r.progress.level)
      && r.levelUps == LevelsBetween(level, r.progress.level)
      && xp == SumNeeded(level, r.progress.level) + r.progress.xp
      && (xp < XpNeeded(level) ==> r == LevelResult(Progress(level, xp), []))
    decreases ClimbMeasure(level), xp
  {
    if xp >= XpNeeded(level) {
      XpNeededPositive(level);
      LevelsAfterSpec(level + 1, xp - XpNeeded(level));
    }
  }

  /** `addXp(progress, amount)`: adds the XP, then levels up while the XP
      reaches the next threshold. */
  method AddXp(progress: Progress, amount: int) returns (r: LevelResult)
    ensures r == LevelsAfter(progress.level, progress.xp + amount)
    ensures r.progress.level >= progress.level
    ensures r.progress.xp < XpNeeded(r.progress.level)
    ensures r.levelUps == LevelsBetween(progress.level, r.progress.level)
    ensures progress.xp + amount == SumNeeded(progress.level, r.progress.level) + r.progress.xp
  {
    var level := progress.level;
    var xp := progress.xp + amount;
    var levelUps: seq<int> := [];
    while xp >= XpNeeded(level)
      invariant LevelsAfter(level, xp).progress == LevelsAfter(progress.level, progress.xp + amount).progress
      invariant levelUps + LevelsAfter(level, xp).levelUps == LevelsAfter(progress.level, progress.xp + amount).levelUps
      decreases ClimbMeasure(level), xp
    {
      XpNeededPositive(level);
      ghost var rest := LevelsAfter(level + 1, xp - XpNeeded(level)).levelUps;
      assert levelUps + ([level + 1] + rest) == (levelUps + [level + 1]) + rest;
      xp := xp - XpNeeded(level);
      level := level + 1;
      levelUps := levelUps + [level];
    }
    r := LevelResult(Progress(level, xp), levelUps);
    LevelsAfterSpec(progress.level, progress.xp + amount);
  }

  /** A zero gain below the threshold changes nothing; exactly one threshold's
      worth of XP from level 1 reaches level 2 with nothing left over. */
  lemma AddXpExamples(level: int, xp: int)
    requires xp < XpNeeded(level)
    ensures LevelsAfter(level, xp + 0) == LevelResult(Progress(level, xp), [])
    ensures LevelsAfter(1, 0 + XpNeeded(1)) == LevelResult(Progress(2, 0), [2])
  {
    assert XpNeeded(1) == 483 && XpNeeded(2) == 973;
    assert LevelsAfter(2, 0) == LevelResult(Progress(2, 0), []);
  }
}
