/** The store returned by `createStore` (src/state/store.js:245-597): one
    mutable `state`, `setState` that clamps life before installing, and
    `dispatch`, which normalises the state, runs one action and installs the
    result. Each method is proved against the reducer's functions. */
module Store {
  import opened Base
  import opened Leveling
  import opened Model
  import opened DailyRecord
  import opened ActionsCatalog
  import opened Achievements
  import opened Penalties
  import opened Rewards
  import opened Training
  import opened Reducer

  /** The tables the store runs with. */
  function Tables(): Config {
    Config(Rules, Actions)
  }

  /** `applyDailyFailurePenalty(applyDailyRolloverPenalty(state))` and then
      `ensureDaily` on the result's record. */
  method Normalized(s: State, today: Day) returns (n: State)
    ensures n == Normalize(s, today)
  {
    var rolled := RolloverPenalty(s, today);
    rolled := ApplyDailyFailurePenalty(rolled, today);
    n := rolled.(daily := EnsureDaily(rolled.daily, today));
  }

  /** The shared tail of the rewarded cases, computed with `addXp` and
      `applyAchievementRewards`. */
  method Gain(rules: seq<Rule>, pre: State, amount: int, env: Env) returns (p: Pipeline)
    ensures p == GainXp(rules, pre, amount, env.today, env.now)
  {
    var res := AddXp(pre.progress, amount);
    var next := Bumped(pre, res);
    var applied := ApplyAchievementRewards(rules, next, env.today, env.now);
    p := Combine(res, applied);
    GainXpStages(rules, pre, amount, env.today, env.now);
  }

  /** The `switch` of `dispatch` on the normalised state. */
  method Handle(cfg: Config, n: State, action: Action, env: Env) returns (t: Transition)
    ensures t == Step(cfg, n, action, env)
  {
    match action {
      case DevLevelUp =>
        var p := Gain(cfg.rules, n, XpNeeded(n.progress.level), env);
        t := Rewarding(p, None);
      case GoalComplete(goal) =>
        t := CompleteGoal(cfg, n, goal, env);
      case DailyDoAction(key) =>
        t := DoAction(cfg, n, key, env);
      case DailySkip =>
        t := Skip(cfg, n, env);
      case TrainingReorder(day, fromId, toId, after) =>
        var w := ReorderTraining(n.training, day, fromId, toId, after);
        t := if w.None? then Silent() else Install(n.(training := w.value));
      case _ =>
        t := Step(cfg, n, action, env);
    }
  }

  /** `case "GOAL_COMPLETE"`. */
  method CompleteGoal(cfg: Config, n: State, goal: string, env: Env) returns (t: Transition)
    ensures t == GoalCompleteStep(cfg, n, goal, env)
  {
    if IsDefeated(n) {
      t := Fail(Dead);
    } else if goal == "" {
      t := Silent();
    } else if GoalDone(n.daily.goalsDone, goal) {
      t := Fail(AlreadyDone);
    } else if GoalTarget(n.goals, goal) <= 0 {
      t := Fail(NotSet);
    } else {
      var gain := ScaledXp(BaseGoalXp, n.progress.level);
      var p := Gain(cfg.rules, GoalCompleted(cfg.catalog, n, goal, env.today), gain, env);
      t := Rewarding(p, Some(gain));
    }
  }

  /** `case "DAILY_DO_ACTION"`. */
  method DoAction(cfg: Config, n: State, key: string, env: Env) returns (t: Transition)
    ensures t == DailyDoActionStep(cfg, n, key, env)
  {
    var meta := Lookup(cfg.catalog, key);
    if IsDefeated(n) {
      t := Fail(Dead);
    } else if meta.None? {
      t := Silent();
    } else if HasDoneAction(n.daily, key) {
      t := Fail(AlreadyDone);
    } else {
      var m := MarkWithBonus(cfg.catalog, n.daily, key);
      var gain := ScaledXp(meta.value.xp + m.bonus, n.progress.level);
      DailyDoActionRewarded(cfg, n, key, env, m, gain);
      t := RewardAction(cfg.rules, n, m.daily, gain, env);
    }
  }

  /** The rewarded tail of `DAILY_DO_ACTION`, once the action is marked. */
  method RewardAction(rules: seq<Rule>, n: State, d: Daily, gain: int, env: Env) returns (t: Transition)
    ensures t == ActionRewarded(rules, n, d, gain, env)
  {
    var p := Gain(rules, ActionDone(n, d, env.today), gain, env);
    t := Rewarding(p, Some(gain));
  }

  /** `case "DAILY_SKIP"`. */
  method Skip(cfg: Config, n: State, env: Env) returns (t: Transition)
    ensures t == DailySkipStep(cfg, n, env)
  {
    if IsDefeated(n) {
      t := Fail(Dead);
    } else if n.tokens <= 0 {
      t := Fail(NoTokens);
    } else if Truthy(n.daily.skipUsed) {
      t := Fail(AlreadyUsed);
    } else {
      var a := ApplyAchievementRewards(cfg.rules, SkipTaken(n, env.today), env.today, env.now);
      t := Transition(Some(a.next), Skipped(a.reward.earned, a.reward.xp, a.levelUps));
    }
  }

  class Store {
    var state: State

    /** `setState` keeps life within `[0, lifeForLevel(level)]`. */
    predicate Valid()
      reads this
    {
      LifeBounded(state)
    }

    /** `createStore({ userId, initialState })`: `migrate` says whether the
        one-time unlock migration still has to run for this user. */
    constructor (initial: State, env: Env, migrate: bool)
      ensures state == Created(Tables(), initial, env, migrate)
      ensures Valid()
    {
      var n := Normalized(initial, env.today);
      if migrate {
        n := n.(daily := n.daily.(actions := map[], bonusCategories := map[]));
      }
      var achievements := GrantAchievements(Rules, n, env.today, n.achievements, env.now);
      state := EnsureLifeState(n.(achievements := achievements));
    }

    /** `setState(next)`. */
    method SetState(next: State)
      modifies this
      ensures state == EnsureLifeState(next)
      ensures Valid()
    {
      state := EnsureLifeState(next);
    }

    /** `dispatch(action)`: the new state is the reducer's, clamped, or the
        old one when the case returns without `setState`. */
    method Dispatch(action: Action, env: Env) returns (out: Outcome)
      requires Valid()
      modifies this
      ensures var t := Reduce(Tables(), old(state), action, env);
        out == t.outcome && state == Commit(old(state), t)
      ensures Valid()
    {
      var n := Normalized(state, env.today);
      var t := Handle(Tables(), n, action, env);
      if t.next.Some? {
        SetState(t.next.value);
      }
      out := t.outcome;
    }
  }
}
