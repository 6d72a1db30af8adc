/** The reducer behind `dispatch` (src/state/store.js:273-597): the
    normalisation every action starts from, and one step per action type.
    The clock, the timestamp and the id generator are the `Env` parameter;
    the achievement table and the action catalog are the `Config`
    parameter, which the store fixes to `Rules` and `Actions`. A step either installs a new state (`setState`) or returns
    without one, and reports what `dispatch` returns. */
module Reducer {
  import opened Base
  import opened Leveling
  import opened Model
  import opened DailyRecord
  import opened ActionsCatalog
  import opened Achievements
  import opened Penalties
  import opened Rewards
  import opened Training

  /** What `dispatch` reads from its surroundings: today's day key, the ISO
      timestamp stamped on new achievements, and the id a new training item gets. */
  datatype Env = Env(today: Day, now: string, freshId: string)

  /** The two tables the reducer reads: the achievement rules and the action
      catalog. The store runs with `Rules` and `Actions`. */
  datatype Config = Config(rules: seq<Rule>, catalog: seq<CatalogAction>)

  /** The action types `dispatch` handles, with their payloads. A payload
      number that is not finite is `None`; an empty string stands for a
      missing string field. */
  datatype Action =
    | DevForceRender
    | Revive
    | DevLevelUp
    | GoalsSet(key: string, value: Option<int>)
    | GoalsSetAll(payload: map<string, Option<int>>)
    | GoalComplete(goal: string)
    | DailySkip
    | TrainingAdd(name: string, reps: string, day: string, done: Option<int>)
    | TrainingRemove(id: string, day: string)
    | TrainingUpdate(id: string, name: string, reps: string, done: Option<int>, day: string)
    | TrainingDoneSet(id: string, day: string, done: Option<int>)
    | TrainingReorder(day: string, fromId: string, toId: string, after: bool)
    | UserSetName(name: string)
    | DailyDoAction(actionKey: string)
    | Unknown

  /** The `{ error }` results. */
  datatype ErrorKind = Dead | AlreadyDone | NotSet | NoTokens | AlreadyUsed {
    function Code(): string {
      match this
      case Dead => "dead"
      case AlreadyDone => "already_done"
      case NotSet => "not_set"
      case NoTokens => "no_tokens"
      case AlreadyUsed => "already_used"
    }
  }

  /** What `dispatch` returns: nothing, an error, the report of an XP gain
      (`xpGained` is absent for `DEV_LEVEL_UP`), or the report of a skip. */
  datatype Outcome =
    | NoResult
    | Failure(error: ErrorKind)
    | Rewarded(levelUps: seq<int>, xpGained: Option<int>, earned: seq<Earned>, achievementXp: int)
    | Skipped(skipEarned: seq<Earned>, skipXp: int, skipLevelUps: seq<int>)

  /** The state handed to `setState`, if any, and the returned value. */
  datatype Transition = Transition(next: Option<State>, outcome: Outcome)

  function Silent(): Transition { Transition(None, NoResult) }

  function Fail(e: ErrorKind): Transition { Transition(None, Failure(e)) }

  function Install(s: State): Transition { Transition(Some(s), NoResult) }

  // ---------------------------------------------------------- normalisation

  /** The state every action starts from: the rollover penalty, the
      catch-up penalty, then today's record normalised. */
  function Normalize(s: State, today: Day): State {
    var rolled := FailurePenalty(RolloverPenalty(s, today), today);
    rolled.(daily := EnsureDaily(rolled.daily, today))
  }

  /** Normalising dates the record today, touches only life, history and the
      record, keeps every archived day, and never adds life to a bounded state. */
  lemma NormalizeSpec(s: State, today: Day)
    ensures var n := Normalize(s, today);
      && n.daily.date == Some(today)
      && !HasInvalidAction(n.daily)
      && n == s.(life := n.life, history := n.history, daily := n.daily)
      && (forall k :: k in s.history ==> k in n.history && n.history[k] == s.history[k])
      && (LifeBounded(s) ==> LifeBounded(n) && n.life.current <= s.life.current)
  {
    var r := RolloverPenalty(s, today);
    PenaltyKeeps(s, r, today);
    PenaltyKeeps(r, FailurePenalty(r, today), today);
  }

  /** What both penalty passes keep: they touch only life and history, keep
      every archived day, and never add life to a bounded state. */
  predicate Keeps(s: State, r: State) {
    && r == s.(life := r.life, history := r.history)
    && (forall k :: k in s.history ==> k in r.history && r.history[k] == s.history[k])
    && (LifeBounded(s) ==> LifeBounded(r) && r.life.current <= s.life.current)
  }

  lemma PenaltyKeeps(s: State, r: State, today: Day)
    requires r == RolloverPenalty(s, today) || r == FailurePenalty(s, today)
    ensures Keeps(s, r)
  {
    if r == RolloverPenalty(s, today) {
      RolloverSpec(s, today);
      if s.daily.date.Some? && s.daily.date.value < today && s.life.lastPenaltyDate != s.daily.date {
        UpdateHistorySpec(s.history, s.daily.date, LiveSnapshot(s));
      }
    } else {
      var seed := Seed(s, today);
      if seed.Some? {
        CatchUpSpec(EnsureLifeState(s), FirstDay(s, seed.value), today, s.daily.date);
      }
    }
  }

  /** On a record already dated today and free of corrupt flags, normalising
      leaves the action flags, the bonus flags and the goal flags as they are. */
  lemma NormalizeKeepsToday(s: State, today: Day)
    requires s.daily.date == Some(today) && !HasInvalidAction(s.daily)
    ensures var n := Normalize(s, today);
      n.daily == s.daily.(skipUsed := n.daily.skipUsed)
      && (s.daily.skipUsed.JBool? ==> n.daily == s.daily)
  {
    RolloverSpec(s, today);
    var seed := Seed(s, today);
    if seed.Some? {
      CatchUpSpec(EnsureLifeState(s), FirstDay(s, seed.value), today, s.daily.date);
    }
  }

  // ------------------------------------------------------------ the record

  /** The snapshot `updateHistory` writes for today, overwriting any earlier one. */
  function TodaySnapshot(history: map<Day, DaySnapshot>, today: Day, goals: map<string, int>, d: Daily)
    : map<Day, DaySnapshot>
  {
    history[today := DaySnapshot(goals, d.goalsDone, TruthMap(d.actions), Truthy(d.skipUsed))]
  }

  /** `!!flags[name]`. */
  predicate FlagSet(flags: map<string, bool>, name: string) {
    name in flags && flags[name]
  }

  /** `UNLOCK_CATEGORY_BY_GOAL[goal]`. */
  function UnlockedBy(goal: string): Option<Category> {
    if goal == "exerciseMinutes" then Some(Training)
    else if goal == "steps" then Some(Movement)
    else if goal == "studyMinutes" then Some(Study)
    else if goal == "readMinutes" then Some(Reading)
    else None
  }

  /** The catalog entry `getActionByKey` finds. */
  function Lookup(catalog: seq<CatalogAction>, key: string): Option<CatalogAction> {
    FindByKey(catalog, key)
  }

  /** `getCategoryForAction(key)`. */
  function CategoryOf(catalog: seq<CatalogAction>, key: string): Option<Category> {
    var a := Lookup(catalog, key);
    if a.Some? then Some(a.value.category) else None
  }

  /** The action keys of one category. */
  function CategoryKeys(catalog: seq<CatalogAction>, c: Category): set<string> {
    var acts := FilterCategory(catalog, c);
    set i | 0 <= i < |acts| :: acts[i].key
  }

  /** Completing a goal that unlocks a category clears that category's action
      flags and its bonus flag. */
  function Unlock(catalog: seq<CatalogAction>, d: Daily, goal: string): Daily {
    var c := UnlockedBy(goal);
    if c.None? || |FilterCategory(catalog, c.value)| == 0 then d
    else d.(actions := d.actions - CategoryKeys(catalog, c.value),
            bonusCategories := d.bonusCategories - {c.value.Name()})
  }

  /** After an unlock every action of the category can be done again and its
      bonus can be earned again; other flags and the rest of the record are kept. */
  lemma UnlockSpec(catalog: seq<CatalogAction>, d: Daily, goal: string)
    ensures var r := Unlock(catalog, d, goal);
      && r == d.(actions := r.actions, bonusCategories := r.bonusCategories)
      && (UnlockedBy(goal).None? || |FilterCategory(catalog, UnlockedBy(goal).value)| == 0 ==> r == d)
      && (UnlockedBy(goal).Some? && |FilterCategory(catalog, UnlockedBy(goal).value)| > 0 ==>
            var c := UnlockedBy(goal).value;
            var acts := FilterCategory(catalog, c);
            && !FlagSet(r.bonusCategories, c.Name())
            && (forall i :: 0 <= i < |acts| ==> !HasDoneAction(r, acts[i].key))
            && (forall k :: k in d.actions && k !in CategoryKeys(catalog, c) ==>
                  k in r.actions && r.actions[k] == d.actions[k])
            && (forall f :: f != c.Name() ==> (FlagSet(r.bonusCategories, f) <==> FlagSet(d.bonusCategories, f))))
  {
  }

  /** Each goal that unlocks a category names a category with actions. */
  lemma CatalogUnlocks(goal: string)
    requires UnlockedBy(goal).Some?
    ensures |FilterCategory(Actions, UnlockedBy(goal).value)| > 0
  {
    CatalogFilters(UnlockedBy(goal).value);
  }

  /** Every action of the category is done. */
  predicate AllDone(catalog: seq<CatalogAction>, d: Daily, c: Category) {
    var acts := FilterCategory(catalog, c);
    forall i :: 0 <= i < |acts| ==> HasDoneAction(d, acts[i].key)
  }

  /** A category's bonus flag is only set while all of its actions are done. */
  predicate BonusConsistent(catalog: seq<CatalogAction>, d: Daily) {
    forall c: Category :: FlagSet(d.bonusCategories, c.Name()) ==> AllDone(catalog, d, c)
  }

  /** The record after `markActionDone` and the category bonus it may pay. */
  datatype Marked = Marked(daily: Daily, bonus: int)

  const CategoryBonusXp := 10

  /** `DAILY_DO_ACTION`'s flag update: the action is marked, and when that
      completes a category whose bonus is not yet flagged, the bonus is paid
      and flagged. */
  function MarkWithBonus(catalog: seq<CatalogAction>, d: Daily, key: string): Marked {
    var marked := MarkActionDone(d, key);
    var c := CategoryOf(catalog, key);
    if c.Some? && !FlagSet(marked.bonusCategories, c.value.Name()) && AllDone(catalog, marked, c.value) then
      Marked(marked.(bonusCategories := marked.bonusCategories[c.value.Name() := true]), CategoryBonusXp)
    else Marked(marked, 0)
  }

  /** The bonus is paid exactly when the marked action completes an unflagged
      category; paying it flags the category, and a flagged category never
      pays again. Nothing else in the record changes. */
  lemma BonusSpec(catalog: seq<CatalogAction>, d: Daily, key: string)
    requires Lookup(catalog, key).Some?
    ensures var m := MarkWithBonus(catalog, d, key);
      var c := Lookup(catalog, key).value.category;
      && HasDoneAction(m.daily, key)
      && (m.bonus == CategoryBonusXp <==>
            !FlagSet(d.bonusCategories, c.Name()) && AllDone(catalog, MarkActionDone(d, key), c))
      && (m.bonus != CategoryBonusXp ==> m.bonus == 0 && m.daily == MarkActionDone(d, key))
      && (FlagSet(d.bonusCategories, c.Name()) ==> m.bonus == 0)
      && FlagSet(m.daily.bonusCategories, c.Name()) == (FlagSet(d.bonusCategories, c.Name()) || m.bonus > 0)
      && (forall f :: f != c.Name() ==> (FlagSet(m.daily.bonusCategories, f) <==> FlagSet(d.bonusCategories, f)))
      && m.daily == d.(actions := m.daily.actions, bonusCategories := m.daily.bonusCategories)
  {
  }

  /** Marking an action keeps the bonus flags consistent with the done actions. */
  lemma MarkConsistent(catalog: seq<CatalogAction>, d: Daily, key: string)
    requires BonusConsistent(catalog, d)
    ensures BonusConsistent(catalog, MarkWithBonus(catalog, d, key).daily)
  {
    var marked := MarkActionDone(d, key);
    var m := MarkWithBonus(catalog, d, key);
    assert m.daily.actions == marked.actions;
    forall c: Category | FlagSet(m.daily.bonusCategories, c.Name())
      ensures AllDone(catalog, m.daily, c)
    {
      var acts := FilterCategory(catalog, c);
      if FlagSet(d.bonusCategories, c.Name()) {
        assert AllDone(catalog, d, c);
        forall i | 0 <= i < |acts| ensures HasDoneAction(m.daily, acts[i].key) {
          assert HasDoneAction(d, acts[i].key);
        }
      } else {
        assert AllDone(catalog, marked, c);
      }
    }
  }

  /** No two catalog entries share a key. */
  predicate UniqueKeys(catalog: seq<CatalogAction>) {
    forall i, j :: 0 <= i < j < |catalog| ==> catalog[i].key != catalog[j].key
  }

  /** With unique keys, an action of one category is not a key of another. */
  lemma KeysOfOtherCategory(catalog: seq<CatalogAction>, c: Category, u: Category, a: CatalogAction)
    requires UniqueKeys(catalog) && c != u && a in FilterCategory(catalog, c)
    ensures a.key !in CategoryKeys(catalog, u)
  {
    FilterCategoryMembers(catalog, c);
    FilterCategoryMembers(catalog, u);
  }

  /** Unlocking keeps the flags consistent with the done actions. */
  lemma UnlockConsistent(catalog: seq<CatalogAction>, d: Daily, goal: string)
    requires UniqueKeys(catalog) && BonusConsistent(catalog, d)
    ensures BonusConsistent(catalog, Unlock(catalog, d, goal))
  {
    var r := Unlock(catalog, d, goal);
    UnlockSpec(catalog, d, goal);
    var u := UnlockedBy(goal);
    if u.Some? && |FilterCategory(catalog, u.value)| > 0 {
      forall c: Category | FlagSet(r.bonusCategories, c.Name())
        ensures AllDone(catalog, r, c)
      {
        assert c.Name() != u.value.Name();
        assert AllDone(catalog, d, c);
        var acts := FilterCategory(catalog, c);
        forall i | 0 <= i < |acts| ensures HasDoneAction(r, acts[i].key) {
          KeysOfOtherCategory(catalog, c, u.value, acts[i]);
          assert HasDoneAction(d, acts[i].key);
        }
      }
    }
  }

  // ------------------------------------------------------------ the steps

  /** `REVIVE`: back to level 1 with no tokens or achievements, a fresh
      record and full life; user, goals, history and training are kept. */
  function Revived(n: State, today: Day): State {
    n.(progress := Progress(1, 0), tokens := 0, achievements := [],
       daily := FreshDaily(today), life := n.life.(current := LifeForLevel(1)))
  }

  /** `GOALS_SET` with a key: the goal takes the value (0 when not finite) and
      its done flag is cleared, whether or not the value changed. */
  function GoalsSetState(n: State, key: string, value: Option<int>, today: Day): State {
    var goals := n.goals[key := value.GetOr(0)];
    var done := if GoalDone(n.daily.goalsDone, key) then n.daily.goalsDone[key := false] else n.daily.goalsDone;
    var d := n.daily.(goalsDone := done);
    n.(goals := goals, daily := d, history := TodaySnapshot(n.history, today, goals, d))
  }

  /** The goals `GOALS_SET_ALL` installs: the payload's values over the old ones. */
  function MergedGoals(goals: map<string, int>, payload: map<string, Option<int>>): map<string, int> {
    goals + map k | k in payload :: payload[k].GetOr(0)
  }

  /** `GOALS_SET_ALL`: merges the payload; a done flag is cleared only when
      its goal's value actually changed or the goal is new. */
  function GoalsSetAllState(n: State, payload: map<string, Option<int>>, today: Day): State {
    var goals := MergedGoals(n.goals, payload);
    var done := map k | k in n.daily.goalsDone ::
      if k in goals && n.daily.goalsDone[k] && (k !in n.goals || n.goals[k] != goals[k]) then false
      else n.daily.goalsDone[k];
    var d := n.daily.(goalsDone := done);
    n.(goals := goals, daily := d, history := TodaySnapshot(n.history, today, goals, d))
  }

  /** The state `GOAL_COMPLETE` hands to the XP gain: the goal flagged done,
      the unlock applied, and today's snapshot rewritten. */
  function GoalCompleted(catalog: seq<CatalogAction>, n: State, goal: string, today: Day): State {
    var d := Unlock(catalog, n.daily.(goalsDone := n.daily.goalsDone[goal := true]), goal);
    n.(daily := d, history := TodaySnapshot(n.history, today, n.goals, d))
  }

  /** A rewarded case's result. */
  function Rewarding(p: Pipeline, gained: Option<int>): Transition {
    Transition(Some(p.next), Rewarded(p.levelUps, gained, p.earned, p.achievementXp))
  }

  /** `DEV_LEVEL_UP`: exactly one threshold's worth of XP. */
  function DevLevelUpStep(cfg: Config, n: State, env: Env): Transition {
    Rewarding(GainXp(cfg.rules, n, XpNeeded(n.progress.level), env.today, env.now), None)
  }

  /** `GOAL_COMPLETE`. */
  function GoalCompleteStep(cfg: Config, n: State, goal: string, env: Env): Transition {
    if IsDefeated(n) then Fail(Dead)
    else if goal == "" then Silent()
    else if GoalDone(n.daily.goalsDone, goal) then Fail(AlreadyDone)
    else if GoalTarget(n.goals, goal) <= 0 then Fail(NotSet)
    else
      var gain := ScaledXp(BaseGoalXp, n.progress.level);
      Rewarding(GainXp(cfg.rules, GoalCompleted(cfg.catalog, n, goal, env.today), gain, env.today, env.now), Some(gain))
  }

  /** The state `DAILY_DO_ACTION` hands to the XP gain: the marked record
      `d`, and today's snapshot rewritten from it. */
  function ActionDone(n: State, d: Daily, today: Day): State {
    n.(daily := d, history := TodaySnapshot(n.history, today, n.goals, d))
  }

  /** `DAILY_DO_ACTION`. */
  function DailyDoActionStep(cfg: Config, n: State, key: string, env: Env): Transition {
    if IsDefeated(n) then Fail(Dead)
    else
      var meta := Lookup(cfg.catalog, key);
      if meta.None? then Silent()
      else if HasDoneAction(n.daily, key) then Fail(AlreadyDone)
      else
        var m := MarkWithBonus(cfg.catalog, n.daily, key);
        ActionRewarded(cfg.rules, n, m.daily, ScaledXp(meta.value.xp + m.bonus, n.progress.level), env)
  }

  /** Once every check has passed, `DAILY_DO_ACTION` is its rewarded tail. */
  lemma DailyDoActionRewarded(cfg: Config, n: State, key: string, env: Env, m: Marked, gain: int)
    requires !IsDefeated(n) && Lookup(cfg.catalog, key).Some? && !HasDoneAction(n.daily, key)
    requires m == MarkWithBonus(cfg.catalog, n.daily, key)
    requires gain == ScaledXp(Lookup(cfg.catalog, key).value.xp + m.bonus, n.progress.level)
    ensures DailyDoActionStep(cfg, n, key, env) == ActionRewarded(cfg.rules, n, m.daily, gain, env)
  {
    DailyDoActionUnfolds(cfg, n, key, env);
  }

  lemma DailyDoActionUnfolds(cfg: Config, n: State, key: string, env: Env)
    requires !IsDefeated(n) && Lookup(cfg.catalog, key).Some? && !HasDoneAction(n.daily, key)
    ensures var m := MarkWithBonus(cfg.catalog, n.daily, key);
      DailyDoActionStep(cfg, n, key, env) ==
        ActionRewarded(cfg.rules, n, m.daily, ScaledXp(Lookup(cfg.catalog, key).value.xp + m.bonus, n.progress.level), env)
  {
  }

  /** A `DAILY_DO_ACTION` that passed its checks, with the marked record `d`
      and `gain`, the action's XP plus any category bonus, scaled by the
      level's multiplier. */
  function ActionRewarded(rules: seq<Rule>, n: State, d: Daily, gain: int, env: Env): Transition {
    Rewarding(GainXp(rules, ActionDone(n, d, env.today), gain, env.today, env.now), Some(gain))
  }

  /** The state `DAILY_SKIP` hands to the achievement sweep: one token spent,
      the skip flagged, today's snapshot rewritten. */
  function SkipTaken(n: State, today: Day): State {
    var d := n.daily.(skipUsed := JBool(true));
    n.(tokens := n.tokens - 1, daily := d, history := TodaySnapshot(n.history, today, n.goals, d))
  }

  /** `DAILY_SKIP`. */
  function DailySkipStep(cfg: Config, n: State, env: Env): Transition {
    if IsDefeated(n) then Fail(Dead)
    else if n.tokens <= 0 then Fail(NoTokens)
    else if Truthy(n.daily.skipUsed) then Fail(AlreadyUsed)
    else
      var a := AchievementRewards(cfg.rules, SkipTaken(n, env.today), env.today, env.now);
      Transition(Some(a.next), Skipped(a.reward.earned, a.reward.xp, a.levelUps))
  }

  /** `TRAINING_ADD`: trimmed name and reps are required; the day defaults to "monday". */
  function TrainingAddStep(n: State, name: string, reps: string, day: string, done: Option<int>, id: string)
    : Transition
  {
    var nm, rp := Trim(name), Trim(reps);
    if nm == "" || rp == "" then Silent()
    else
      var d := if day == "" then "monday" else day;
      Install(n.(training := AddItem(n.training, d, TrainingItem(id, nm, rp, SafeDone(done)))))
  }

  /** `TRAINING_UPDATE`. */
  function TrainingUpdateStep(n: State, id: string, name: string, reps: string, done: Option<int>, day: string)
    : Transition
  {
    var nm, rp := Trim(name), Trim(reps);
    if id == "" || nm == "" || rp == "" || day == "" then Silent()
    else Install(n.(training := n.training[day := Rewrite(DayList(n.training, day), id, nm, rp, SafeDone(done))]))
  }

  /** One action applied to the normalised state `n`. */
  function Step(cfg: Config, n: State, action: Action, env: Env): Transition {
    match action
    case DevForceRender => Install(n)
    case Revive => Install(Revived(n, env.today))
    case DevLevelUp => DevLevelUpStep(cfg, n, env)
    case GoalsSet(key, value) =>
      if key == "" then Silent() else Install(GoalsSetState(n, key, value, env.today))
    case GoalsSetAll(payload) => Install(GoalsSetAllState(n, payload, env.today))
    case GoalComplete(goal) => GoalCompleteStep(cfg, n, goal, env)
    case DailySkip => DailySkipStep(cfg, n, env)
    case TrainingAdd(name, reps, day, done) => TrainingAddStep(n, name, reps, day, done, env.freshId)
    case TrainingRemove(id, day) =>
      if id == "" || day == "" then Silent()
      else Install(n.(training := n.training[day := WithoutId(DayList(n.training, day), id)]))
    case TrainingUpdate(id, name, reps, done, day) => TrainingUpdateStep(n, id, name, reps, done, day)
    case TrainingDoneSet(id, day, done) =>
      if id == "" || day == "" then Silent()
      else Install(n.(training := n.training[day := SetDone(DayList(n.training, day), id, SafeDone(done))]))
    case TrainingReorder(day, fromId, toId, after) =>
      var w := ReorderWeek(n.training, day, fromId, toId, after);
      if w.None? then Silent() else Install(n.(training := w.value))
    case UserSetName(name) =>
      var nm := Trim(name);
      if nm == "" then Silent() else Install(n.(user := n.user.(name := nm)))
    case DailyDoAction(key) => DailyDoActionStep(cfg, n, key, env)
    case Unknown => Silent()
  }

  /** `dispatch(action)` on the state `s`. */
  function Reduce(cfg: Config, s: State, action: Action, env: Env): Transition {
    Step(cfg, Normalize(s, env.today), action, env)
  }

  /** The store's state after a dispatch: `setState` clamps life, and a case
      that returns without `setState` keeps the old state. */
  function Commit(s: State, t: Transition): State {
    if t.next.Some? then EnsureLifeState(t.next.value) else s
  }

  /** The state `createStore` starts from: normalised, optionally migrated
      (action and bonus flags cleared once per user), with every met
      achievement granted (without reward XP) and life clamped. */
  function Created(cfg: Config, initial: State, env: Env, migrate: bool): State {
    var n := Normalize(initial, env.today);
    var m := if migrate then n.(daily := n.daily.(actions := map[], bonusCategories := map[])) else n;
    var g := Granted(cfg.rules, m, env.today, Ids(m.achievements));
    EnsureLifeState(m.(achievements := m.achievements + Stamp(g, env.now)))
  }
}
