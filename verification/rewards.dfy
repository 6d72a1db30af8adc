/** The reward pipeline of the store (src/state/store.js:202-225): the
    achievement sweep with its reward XP, the level-ups that XP causes, one
    token per level-up, and the full heal after any level-up. */
module Rewards {
  import opened Base
  import opened Leveling
  import opened Model
  import opened Achievements

  /** `applyLevelUpHealing(next, didLevelUp)`: a level-up refills life to the
      maximum of the new level; otherwise nothing changes. */
  function ApplyLevelUpHealing(s: State, didLevelUp: bool): (r: State)
    ensures !didLevelUp ==> r == s
    ensures didLevelUp ==> r.life.current == LifeForLevel(s.progress.level)
    ensures r == s.(life := s.life.(current := r.life.current))
  {
    if !didLevelUp then s
    else s.(life := s.life.(current := LifeForLevel(s.progress.level)))
  }

  /** What `grantAchievementRewards(state, state.achievements)` returns when
      the sweep runs over the table `rules` (the store uses `Rules`). */
  function RewardSweep(rules: seq<Rule>, s: State, today: Day, earnedAt: string): Grant {
    var g := Granted(rules, s, today, Ids(s.achievements));
    Grant(s.achievements + Stamp(g, earnedAt), EarnedOf(g), SumXp(EarnedOf(g)))
  }

  /** What `applyAchievementRewards(next)` returns. */
  datatype Applied = Applied(next: State, reward: Grant, levelUps: seq<int>)

  /** The value `applyAchievementRewards(next)` computes. */
  function AchievementRewards(rules: seq<Rule>, s: State, today: Day, earnedAt: string): Applied {
    ApplyReward(s, RewardSweep(rules, s, today, earnedAt))
  }

  /** What `applyAchievementRewards` does with the sweep's result. */
  function ApplyReward(s: State, reward: Grant): Applied {
    var res := if reward.xp > 0 then LevelsAfter(s.progress.level, s.progress.xp + reward.xp)
               else LevelResult(s.progress, []);
    var base := s.(progress := res.progress, tokens := s.tokens + |res.levelUps|,
                   achievements := reward.achievements);
    Applied(ApplyLevelUpHealing(base, |res.levelUps| > 0), reward, res.levelUps)
  }

  /** `applyAchievementRewards(next)`: runs the sweep, adds its XP, and pays
      one token per level-up. */
  method ApplyAchievementRewards(rules: seq<Rule>, s: State, today: Day, earnedAt: string) returns (a: Applied)
    ensures a == AchievementRewards(rules, s, today, earnedAt)
  {
    var reward := GrantAchievementRewards(rules, s, today, s.achievements, earnedAt);
    a := PayReward(s, reward);
  }

  /** The second half of `applyAchievementRewards`: the sweep's XP through
      `addXp`, a token per level-up, the new achievement list, and the heal.
      It runs the looping `Leveling.AddXp`, as the source does, and is proved
      to compute `ApplyReward`, which the lemmas reason about. */
  method PayReward(s: State, reward: Grant) returns (a: Applied)
    ensures a == ApplyReward(s, reward)
  {
    var progress := s.progress;
    var tokens := s.tokens;
    var levelUps: seq<int> := [];
    if reward.xp > 0 {
      var res := AddXp(progress, reward.xp);
      progress := res.progress;
      levelUps := res.levelUps;
      tokens := tokens + |levelUps|;
    }
    var baseNext := s.(progress := progress, tokens := tokens, achievements := reward.achievements);
    var healedNext := ApplyLevelUpHealing(baseNext, |levelUps| > 0);
    a := Applied(healedNext, reward, levelUps);
  }

  /** The sweep keeps the old achievements as a prefix and its XP is the
      (non-negative) sum of what it lists as earned. */
  lemma RewardSweepSpec(rules: seq<Rule>, s: State, today: Day, earnedAt: string)
    ensures var reward := RewardSweep(rules, s, today, earnedAt);
      && |s.achievements| <= |reward.achievements|
      && reward.achievements[..|s.achievements|] == s.achievements
      && reward.xp == SumXp(reward.earned) >= 0
  {
    var g := Granted(rules, s, today, Ids(s.achievements));
    SumXpOfEarned(g);
    assert (s.achievements + Stamp(g, earnedAt))[..|s.achievements|] == s.achievements;
  }

  /** How an XP gain may change the state: tokens rise by exactly the number
      of level-ups, which are the levels passed in order; life is refilled to the new level's maximum when a
      level was gained and untouched otherwise; the old achievements stay a
      prefix; and only progress, tokens, achievements and life change. */
  predicate Levelled(pre: State, next: State, levelUps: seq<int>) {
    && next.tokens == pre.tokens + |levelUps|
    && next.progress.level >= pre.progress.level
    && levelUps == LevelsBetween(pre.progress.level, next.progress.level)
    && (|levelUps| > 0 ==> next.life.current == LifeForLevel(next.progress.level))
    && (|levelUps| == 0 ==> next.life == pre.life)
    && |pre.achievements| <= |next.achievements|
    && next.achievements[..|pre.achievements|] == pre.achievements
    && next == pre.(progress := next.progress, tokens := next.tokens,
                    achievements := next.achievements, life := next.life)
  }

  /** Paying a reward that extends the achievement list. */
  lemma ApplyRewardSpec(s: State, reward: Grant)
    requires |s.achievements| <= |reward.achievements|
    requires reward.achievements[..|s.achievements|] == s.achievements
    ensures var a := ApplyReward(s, reward);
      Levelled(s, a.next, a.levelUps) && a.next.achievements == reward.achievements
      && a.reward == reward
      && (reward.xp > 0 || s.progress.xp < XpNeeded(s.progress.level) ==>
            a.next.progress.xp < XpNeeded(a.next.progress.level))
  {
    if reward.xp > 0 {
      LevelsAfterSpec(s.progress.level, s.progress.xp + reward.xp);
    } else {
      assert LevelsBetween(s.progress.level, s.progress.level) == [];
    }
  }

  /** `applyAchievementRewards` levels the state as `Levelled` says, keeps
      XP below the threshold when it was, and reports the sum of what it earned. */
  lemma AchievementRewardsSpec(rules: seq<Rule>, s: State, today: Day, earnedAt: string)
    ensures var a := AchievementRewards(rules, s, today, earnedAt);
      && Levelled(s, a.next, a.levelUps) && a.reward.xp == SumXp(a.reward.earned)
      && (s.progress.xp < XpNeeded(s.progress.level) ==> a.next.progress.xp < XpNeeded(a.next.progress.level))
  {
    RewardSweepSpec(rules, s, today, earnedAt);
    ApplyRewardSpec(s, RewardSweep(rules, s, today, earnedAt));
  }

  /** What a rewarded dispatch case reports and installs. */
  datatype Pipeline = Pipeline(next: State, levelUps: seq<int>, earned: seq<Earned>, achievementXp: int)

  /** The shared tail of `GOAL_COMPLETE`, `DAILY_DO_ACTION` and `DEV_LEVEL_UP`:
      `addXp` with the gained amount, one token per level-up, the achievement
      sweep, and a heal if either step gained a level. The reported level-ups
      are every level passed, and the reported XP is what the sweep earned. */
  function GainXp(rules: seq<Rule>, pre: State, amount: int, today: Day, earnedAt: string): (p: Pipeline)
    ensures Levelled(pre, p.next, p.levelUps)
    ensures p.next.progress.xp < XpNeeded(p.next.progress.level)
    ensures p.achievementXp == SumXp(p.earned)
  {
    var res := LevelsAfter(pre.progress.level, pre.progress.xp + amount);
    LevelsAfterSpec(pre.progress.level, pre.progress.xp + amount);
    var next := Bumped(pre, res);
    var applied := AchievementRewards(rules, next, today, earnedAt);
    AchievementRewardsSpec(rules, next, today, earnedAt);
    CombineSpec(pre, res, next, applied);
    Combine(res, applied)
  }

  /** The state after the direct gain: new progress and one token per level-up. */
  function Bumped(pre: State, res: LevelResult): State {
    pre.(progress := res.progress, tokens := pre.tokens + |res.levelUps|)
  }

  /** `GainXp` as the composition of its two stages. */
  lemma GainXpStages(rules: seq<Rule>, pre: State, amount: int, today: Day, earnedAt: string)
    ensures var res := LevelsAfter(pre.progress.level, pre.progress.xp + amount);
      GainXp(rules, pre, amount, today, earnedAt) ==
        Combine(res, AchievementRewards(rules, Bumped(pre, res), today, earnedAt))
  {
  }

  /** The direct level-ups followed by the sweep's, and the heal. */
  function Combine(res: LevelResult, applied: Applied): Pipeline {
    var leveledUp := |res.levelUps| > 0 || |applied.levelUps| > 0;
    Pipeline(ApplyLevelUpHealing(applied.next, leveledUp), res.levelUps + applied.levelUps,
             applied.reward.earned, applied.reward.xp)
  }

  /** A direct gain followed by a `Levelled` sweep is `Levelled` as a whole. */
  lemma CombineSpec(pre: State, res: LevelResult, next: State, applied: Applied)
    requires res.progress.level >= pre.progress.level
    requires res.levelUps == LevelsBetween(pre.progress.level, res.progress.level)
    requires next == Bumped(pre, res)
    requires Levelled(next, applied.next, applied.levelUps)
    requires applied.next.progress.xp < XpNeeded(applied.next.progress.level)
    ensures Levelled(pre, Combine(res, applied).next, Combine(res, applied).levelUps)
    ensures Combine(res, applied).next.progress.xp < XpNeeded(Combine(res, applied).next.progress.level)
  {
    LevelsBetweenAppend(pre.progress.level, res.progress.level, applied.next.progress.level);
  }
}
