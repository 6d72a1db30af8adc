/** What one `dispatch` guarantees, case by case (src/state/store.js:273-597),
    and what holds across two dispatches on the same day. The lemmas are
    stated for any `Config`, so they hold for the store's own tables. */
module DispatchFacts {
  import opened Base
  import opened Leveling
  import opened Model
  import opened DailyRecord
  import opened ActionsCatalog
  import opened Achievements
  import opened Penalties
  import opened Rewards
  import opened Training
  import opened Reducer

  // ----------------------------------------------------------- GOAL_COMPLETE

  /** `GOAL_COMPLETE` refuses a defeated player first, then ignores an empty
      goal, then refuses a goal already done, then one with no positive
      target; it installs a state exactly when every check passes. */
  lemma GoalCompleteChecks(cfg: Config, n: State, goal: string, env: Env)
    ensures var t := GoalCompleteStep(cfg, n, goal, env);
      && (t == Fail(Dead) <==> IsDefeated(n))
      && (t == Silent() <==> !IsDefeated(n) && goal == "")
      && (t == Fail(AlreadyDone) <==> !IsDefeated(n) && goal != "" && GoalDone(n.daily.goalsDone, goal))
      && (t == Fail(NotSet) <==>
            !IsDefeated(n) && goal != "" && !GoalDone(n.daily.goalsDone, goal) && GoalTarget(n.goals, goal) <= 0)
      && (t.next.Some? <==>
            !IsDefeated(n) && goal != "" && !GoalDone(n.daily.goalsDone, goal) && GoalTarget(n.goals, goal) > 0)
      && (t.next.Some? ==> t.outcome.Rewarded?)
  {
  }

  /** A completed goal is flagged done in the record and in today's snapshot,
      earns the base goal XP scaled by the level, and goes through the XP
      pipeline: one token and a full heal per level passed, and the
      achievement list only grows. */
  lemma GoalCompleteRewards(cfg: Config, n: State, goal: string, env: Env)
    requires !IsDefeated(n) && goal != "" && !GoalDone(n.daily.goalsDone, goal) && GoalTarget(n.goals, goal) > 0
    ensures var t := GoalCompleteStep(cfg, n, goal, env);
      && t.next.Some? && t.outcome.Rewarded?
      && Levelled(GoalCompleted(cfg.catalog, n, goal, env.today), t.next.value, t.outcome.levelUps)
      && t.outcome.xpGained == Some((600 + 4 * n.progress.level + 3) / 6)
      && GoalDone(t.next.value.daily.goalsDone, goal)
      && env.today in t.next.value.history
      && GoalDone(t.next.value.history[env.today].goalsDone, goal)
  {
    GoalXpFormula(n.progress.level);
    var d := n.daily.(goalsDone := n.daily.goalsDone[goal := true]);
    UnlockSpec(cfg.catalog, d, goal);
  }

  // --------------------------------------------------------- DAILY_DO_ACTION

  /** `DAILY_DO_ACTION` refuses a defeated player first, then ignores a key
      the catalog does not know, then refuses an action already done today;
      it installs a state exactly when every check passes. */
  lemma DailyDoActionChecks(cfg: Config, n: State, key: string, env: Env)
    ensures var t := DailyDoActionStep(cfg, n, key, env);
      && (t == Fail(Dead) <==> IsDefeated(n))
      && (t == Silent() <==> !IsDefeated(n) && Lookup(cfg.catalog, key).None?)
      && (t == Fail(AlreadyDone) <==>
            !IsDefeated(n) && Lookup(cfg.catalog, key).Some? && HasDoneAction(n.daily, key))
      && (t.next.Some? <==>
            !IsDefeated(n) && Lookup(cfg.catalog, key).Some? && !HasDoneAction(n.daily, key))
      && (t.next.Some? ==> t.outcome.Rewarded?)
  {
    if !IsDefeated(n) && Lookup(cfg.catalog, key).Some? && !HasDoneAction(n.daily, key) {
      DailyDoActionUnfolds(cfg, n, key, env);
    }
  }

  /** A done action is flagged in the installed record, earns the catalog XP
      plus the category bonus if it was paid, scaled by the level, and goes
      through the XP pipeline. */
  lemma DailyDoActionRewards(cfg: Config, n: State, key: string, env: Env)
    requires !IsDefeated(n) && Lookup(cfg.catalog, key).Some? && !HasDoneAction(n.daily, key)
    ensures var t := DailyDoActionStep(cfg, n, key, env);
      var m := MarkWithBonus(cfg.catalog, n.daily, key);
      && t.next.Some? && t.outcome.Rewarded?
      && Levelled(ActionDone(n, m.daily, env.today), t.next.value, t.outcome.levelUps)
      && t.next.value.daily == m.daily
      && HasDoneAction(t.next.value.daily, key)
      && t.outcome.xpGained == Some(ScaledXp(Lookup(cfg.catalog, key).value.xp + m.bonus, n.progress.level))
  {
    var m := MarkWithBonus(cfg.catalog, n.daily, key);
    var gain := ScaledXp(Lookup(cfg.catalog, key).value.xp + m.bonus, n.progress.level);
    DailyDoActionRewarded(cfg, n, key, env, m, gain);
    BonusSpec(cfg.catalog, n.daily, key);
  }

  // -------------------------------------------------------------- DAILY_SKIP

  /** `DAILY_SKIP` refuses a defeated player first, then a player without
      tokens, then a day already skipped; it installs a state exactly when
      every check passes. */
  lemma DailySkipChecks(cfg: Config, n: State, env: Env)
    ensures var t := DailySkipStep(cfg, n, env);
      && (t == Fail(Dead) <==> IsDefeated(n))
      && (t == Fail(NoTokens) <==> !IsDefeated(n) && n.tokens <= 0)
      && (t == Fail(AlreadyUsed) <==> !IsDefeated(n) && n.tokens > 0 && Truthy(n.daily.skipUsed))
      && (t.next.Some? <==> !IsDefeated(n) && n.tokens > 0 && !Truthy(n.daily.skipUsed))
      && (t.next.Some? ==> t.outcome.Skipped?)
  {
  }

  /** A skip spends one token, gains one per level the achievement sweep
      passes, and marks the day skipped in the record and in today's
      snapshot; nothing else in the record changes. */
  lemma DailySkipSpends(cfg: Config, n: State, env: Env)
    requires !IsDefeated(n) && n.tokens > 0 && !Truthy(n.daily.skipUsed)
    ensures var t := DailySkipStep(cfg, n, env);
      && t.next.Some? && t.outcome.Skipped?
      && t.next.value.tokens == n.tokens - 1 + |t.outcome.skipLevelUps|
      && t.next.value.daily == n.daily.(skipUsed := JBool(true))
      && env.today in t.next.value.history && t.next.value.history[env.today].skipUsed
      && Levelled(SkipTaken(n, env.today), t.next.value, t.outcome.skipLevelUps)
      && t.outcome.skipXp == SumXp(t.outcome.skipEarned)
  {
    AchievementRewardsSpec(cfg.rules, SkipTaken(n, env.today), env.today, env.now);
  }

  // ------------------------------------------------------- two dispatches a day

  /** Once a skip went through, every further skip the same day is refused. */
  lemma NoSecondSkip(cfg: Config, s: State, env: Env, later: Env)
    requires later.today == env.today
    requires Reduce(cfg, s, DailySkip, env).next.Some?
    ensures var t := Reduce(cfg, Commit(s, Reduce(cfg, s, DailySkip, env)), DailySkip, later);
      t.next.None? && t.outcome.Failure?
  {
    var n := Normalize(s, env.today);
    NormalizeSpec(s, env.today);
    var t := DailySkipStep(cfg, n, env);
    assert Reduce(cfg, s, DailySkip, env) == t;
    DailySkipChecks(cfg, n, env);
    DailySkipSpends(cfg, n, env);
    SkipRefusedOnceUsed(cfg, EnsureLifeState(t.next.value), later);
  }

  /** A record dated today whose skip is flagged refuses a skip. */
  lemma SkipRefusedOnceUsed(cfg: Config, s: State, env: Env)
    requires s.daily.date == Some(env.today) && !HasInvalidAction(s.daily) && s.daily.skipUsed == JBool(true)
    ensures var t := Reduce(cfg, s, DailySkip, env);
      t.next.None? && t.outcome.Failure?
  {
    NormalizeKeepsToday(s, env.today);
    DailySkipChecks(cfg, Normalize(s, env.today), env);
  }

  /** Once an action went through, doing it again the same day is refused. */
  lemma NoRepeatAction(cfg: Config, s: State, key: string, env: Env, later: Env)
    requires later.today == env.today
    requires Reduce(cfg, s, DailyDoAction(key), env).next.Some?
    ensures var t := Reduce(cfg, Commit(s, Reduce(cfg, s, DailyDoAction(key), env)), DailyDoAction(key), later);
      t.next.None? && t.outcome.Failure?
  {
    ActionCommitted(cfg, s, key, env);
    ActionRefusedOnceDone(cfg, Commit(s, Reduce(cfg, s, DailyDoAction(key), env)), key, later);
  }

  /** The state a successful `DAILY_DO_ACTION` commits carries the marked
      record, dated today and holding only boolean flags. */
  lemma ActionCommitted(cfg: Config, s: State, key: string, env: Env)
    requires Reduce(cfg, s, DailyDoAction(key), env).next.Some?
    ensures var n := Normalize(s, env.today);
      var r := Commit(s, Reduce(cfg, s, DailyDoAction(key), env));
      && Lookup(cfg.catalog, key).Some?
      && r.daily == MarkWithBonus(cfg.catalog, n.daily, key).daily
      && r.daily.date == Some(env.today) && !HasInvalidAction(r.daily) && HasDoneAction(r.daily, key)
  {
    var n := Normalize(s, env.today);
    ReduceDoAction(cfg, s, key, env);
    NormalizeSpec(s, env.today);
    ActionInstalled(cfg, n, key, env);
  }

  /** `DAILY_DO_ACTION` dispatches to its own case on the normalised state. */
  lemma ReduceDoAction(cfg: Config, s: State, key: string, env: Env)
    ensures Reduce(cfg, s, DailyDoAction(key), env) == DailyDoActionStep(cfg, Normalize(s, env.today), key, env)
  {
  }

  /** The same, for the step on a record dated today with boolean flags. */
  lemma ActionInstalled(cfg: Config, n: State, key: string, env: Env)
    requires n.daily.date == Some(env.today) && !HasInvalidAction(n.daily)
    requires DailyDoActionStep(cfg, n, key, env).next.Some?
    ensures var r := EnsureLifeState(DailyDoActionStep(cfg, n, key, env).next.value);
      && Lookup(cfg.catalog, key).Some?
      && r.daily == MarkWithBonus(cfg.catalog, n.daily, key).daily
      && r.daily.date == Some(env.today) && !HasInvalidAction(r.daily) && HasDoneAction(r.daily, key)
  {
    DailyDoActionChecks(cfg, n, key, env);
    DailyDoActionRewards(cfg, n, key, env);
    BonusSpec(cfg.catalog, n.daily, key);
    MarkKeepsBooleans(cfg.catalog, n.daily, key);
  }

  /** A record dated today on which a known action is done refuses that action. */
  lemma ActionRefusedOnceDone(cfg: Config, s: State, key: string, env: Env)
    requires Lookup(cfg.catalog, key).Some?
    requires s.daily.date == Some(env.today) && !HasInvalidAction(s.daily) && HasDoneAction(s.daily, key)
    ensures var t := Reduce(cfg, s, DailyDoAction(key), env);
      t.next.None? && t.outcome.Failure?
  {
    NormalizeKeepsToday(s, env.today);
    DailyDoActionChecks(cfg, Normalize(s, env.today), key, env);
  }

  /** Marking an action stores a boolean, so a record whose flags were all
      booleans stays that way. */
  lemma MarkKeepsBooleans(catalog: seq<CatalogAction>, d: Daily, key: string)
    requires !HasInvalidAction(d) && Lookup(catalog, key).Some?
    ensures !HasInvalidAction(MarkWithBonus(catalog, d, key).daily)
  {
    BonusSpec(catalog, d, key);
    var r := MarkWithBonus(catalog, d, key).daily;
    forall k | k in r.actions ensures r.actions[k].JBool? {
      if k != key {
        assert k in d.actions;
      }
    }
  }

  /** Once a category's bonus was paid, no action of that category pays it
      again the same day. */
  lemma BonusPaidOnce(cfg: Config, s: State, key: string, other: string, env: Env, later: Env)
    requires later.today == env.today
    requires Reduce(cfg, s, DailyDoAction(key), env).next.Some?
    requires MarkWithBonus(cfg.catalog, Normalize(s, env.today).daily, key).bonus == CategoryBonusXp
    requires Lookup(cfg.catalog, other).Some? && CategoryOf(cfg.catalog, other) == CategoryOf(cfg.catalog, key)
    ensures var s1 := Commit(s, Reduce(cfg, s, DailyDoAction(key), env));
      MarkWithBonus(cfg.catalog, Normalize(s1, later.today).daily, other).bonus == 0
  {
    ActionCommitted(cfg, s, key, env);
    BonusSpec(cfg.catalog, Normalize(s, env.today).daily, key);
    FlaggedPaysNothing(cfg.catalog, Commit(s, Reduce(cfg, s, DailyDoAction(key), env)), other, later.today);
  }

  /** On a record dated today whose category bonus is flagged, an action of
      that category pays no bonus. */
  lemma FlaggedPaysNothing(catalog: seq<CatalogAction>, s: State, key: string, today: Day)
    requires s.daily.date == Some(today) && !HasInvalidAction(s.daily)
    requires Lookup(catalog, key).Some? && FlagSet(s.daily.bonusCategories, Lookup(catalog, key).value.category.Name())
    ensures MarkWithBonus(catalog, Normalize(s, today).daily, key).bonus == 0
  {
    NormalizeKeepsToday(s, today);
    BonusSpec(catalog, Normalize(s, today).daily, key);
  }

  // -------------------------------------------------------------------- REVIVE

  /** `REVIVE` restarts the run at level 1 with no tokens or achievements, a
      fresh record and full life; user, goals, training and every archived
      day are kept. */
  lemma ReviveResets(cfg: Config, s: State, env: Env)
    ensures var t := Reduce(cfg, s, Revive, env);
      var r := Commit(s, t);
      && t.next.Some? && t.outcome == NoResult
      && r.progress == Progress(1, 0) && r.tokens == 0 && r.achievements == []
      && r.daily == FreshDaily(env.today)
      && r.life.current == LifeForLevel(1) && !IsDefeated(r)
      && r.user == s.user && r.goals == s.goals && r.training == s.training
      && (forall k :: k in s.history ==> k in r.history && r.history[k] == s.history[k])
  {
    NormalizeSpec(s, env.today);
  }

  // --------------------------------------------------------------- the goals

  /** `GOALS_SET` gives the goal its value (0 for a number that is not
      finite) and always leaves it not done; the other goals, their flags and
      the rest of the record are kept, and today's snapshot shows the new
      goals. */
  lemma GoalsSetSpec(n: State, key: string, value: Option<int>, today: Day)
    ensures var r := GoalsSetState(n, key, value, today);
      && key in r.goals && r.goals[key] == value.GetOr(0)
      && (forall k :: k != key ==> (k in r.goals <==> k in n.goals))
      && (forall k :: k != key && k in n.goals ==> r.goals[k] == n.goals[k])
      && !GoalDone(r.daily.goalsDone, key)
      && (forall k :: k != key ==> (GoalDone(r.daily.goalsDone, k) <==> GoalDone(n.daily.goalsDone, k)))
      && r.daily == n.daily.(goalsDone := r.daily.goalsDone)
      && today in r.history && r.history[today].goals == r.goals
      && r == n.(goals := r.goals, daily := r.daily, history := r.history)
  {
  }

  /** `GOALS_SET_ALL` merges the payload over the goals and clears a done flag
      only for a goal the payload gives a new value or adds. */
  lemma GoalsSetAllSpec(n: State, payload: map<string, Option<int>>, today: Day)
    ensures var r := GoalsSetAllState(n, payload, today);
      && (forall k :: k in payload ==> k in r.goals && r.goals[k] == payload[k].GetOr(0))
      && (forall k :: k !in payload ==> (k in r.goals <==> k in n.goals))
      && (forall k :: k !in payload && k in n.goals ==> r.goals[k] == n.goals[k])
      && (forall k :: GoalDone(r.daily.goalsDone, k) <==>
            GoalDone(n.daily.goalsDone, k)
            && !(k in payload && (k !in n.goals || n.goals[k] != payload[k].GetOr(0))))
      && r.daily == n.daily.(goalsDone := r.daily.goalsDone)
      && today in r.history && r.history[today].goals == r.goals
      && r == n.(goals := r.goals, daily := r.daily, history := r.history)
  {
  }

  /** Re-entering a done goal's own value clears its flag through
      `GOALS_SET` but keeps it through `GOALS_SET_ALL`. */
  lemma GoalsSetAsymmetry(n: State, key: string, v: int, today: Day)
    requires key in n.goals && n.goals[key] == v && GoalDone(n.daily.goalsDone, key)
    ensures !GoalDone(GoalsSetState(n, key, Some(v), today).daily.goalsDone, key)
    ensures GoalDone(GoalsSetAllState(n, map[key := Some(v)], today).daily.goalsDone, key)
  {
    GoalsSetSpec(n, key, Some(v), today);
    GoalsSetAllSpec(n, map[key := Some(v)], today);
  }

  // ------------------------------------------------------------ user and training

  /** `USER_SET_NAME` installs the trimmed name, and ignores a blank one. */
  lemma UserSetNameSpec(cfg: Config, n: State, name: string, env: Env)
    ensures var t := Step(cfg, n, UserSetName(name), env);
      && (t.next.Some? <==> !AllSpace(name))
      && (t.next.None? ==> t == Silent())
      && (t.next.Some? ==> t.next.value == n.(user := User(Trim(name))) && Trim(name) != [])
  {
  }

  /** `TRAINING_REMOVE` with an id and a day leaves no item with that id on
      that day and every other day as it was. */
  lemma TrainingRemoveSpec(cfg: Config, n: State, id: string, day: string, env: Env)
    ensures var t := Step(cfg, n, TrainingRemove(id, day), env);
      && (id == "" || day == "" ==> t == Silent())
      && (id != "" && day != "" ==>
            var w := t.next.value.training;
            && t.next.Some? && t == Install(n.(training := w))
            && (forall i :: 0 <= i < |DayList(w, day)| ==> DayList(w, day)[i].id != id)
            && (forall i :: 0 <= i < |DayList(w, day)| ==> DayList(w, day)[i] in DayList(n.training, day))
            && (forall d :: d != day ==> DayList(w, d) == DayList(n.training, d)))
  {
    if id != "" && day != "" {
      WithoutIdMembers(DayList(n.training, day), id);
    }
  }

  /** `TRAINING_ADD` with a non-blank name and reps puts the new item, with
      the trimmed texts and the fresh id, first on its day ("monday" when
      none is given); a blank name or reps installs nothing. */
  lemma TrainingAddSpec(cfg: Config, n: State, name: string, reps: string, day: string, done: Option<int>, env: Env)
    ensures var t := Step(cfg, n, TrainingAdd(name, reps, day, done), env);
      var d := if day == "" then "monday" else day;
      && (AllSpace(name) || AllSpace(reps) ==> t == Silent())
      && (!AllSpace(name) && !AllSpace(reps) ==>
            && t.next.Some?
            && t == Install(n.(training := t.next.value.training))
            && DayList(t.next.value.training, d) ==
                 [TrainingItem(env.freshId, Trim(name), Trim(reps), SafeDone(done))] + DayList(n.training, d)
            && (forall o :: o != d ==> DayList(t.next.value.training, o) == DayList(n.training, o)))
  {
  }

  // ------------------------------------------------------------ errors

  /** Only `GOAL_COMPLETE`, `DAILY_SKIP` and `DAILY_DO_ACTION` report an
      error, and a dispatch that reports one leaves the store's state as it
      was. */
  lemma FailuresChangeNothing(cfg: Config, s: State, action: Action, env: Env)
    ensures var t := Reduce(cfg, s, action, env);
      t.outcome.Failure? ==>
        && t.next.None? && Commit(s, t) == s
        && (action.GoalComplete? || action.DailySkip? || action.DailyDoAction?)
  {
    var n := Normalize(s, env.today);
    match action
    case GoalComplete(goal) => GoalCompleteChecks(cfg, n, goal, env);
    case DailySkip => DailySkipChecks(cfg, n, env);
    case DailyDoAction(key) => DailyDoActionChecks(cfg, n, key, env);
    case _ =>
  }
  // ------------------------------------------------------------ bonus flags

  /** The store's catalog has no duplicate keys. */
  lemma ActionsUniqueKeys()
    ensures UniqueKeys(Actions)
  {
    CatalogWellFormed();
  }

  /** Consistency reads only the action flags and the bonus flags. */
  lemma SameFlagsConsistent(catalog: seq<CatalogAction>, d: Daily, e: Daily)
    requires e.actions == d.actions && e.bonusCategories == d.bonusCategories
    requires BonusConsistent(catalog, d)
    ensures BonusConsistent(catalog, e)
  {
    forall c: Category | FlagSet(e.bonusCategories, c.Name()) ensures AllDone(catalog, e, c) {
      var acts := FilterCategory(catalog, c);
      assert AllDone(catalog, d, c);
      forall i | 0 <= i < |acts| ensures HasDoneAction(e, acts[i].key) {
        assert HasDoneAction(d, acts[i].key);
      }
    }
  }

  /** Normalising keeps the bonus flags consistent: the penalties leave the
      record alone, and `ensureDaily` either keeps both kinds of flags or
      empties the bonus flags. */
  lemma NormalizeConsistent(catalog: seq<CatalogAction>, s: State, today: Day)
    requires BonusConsistent(catalog, s.daily)
    ensures BonusConsistent(catalog, Normalize(s, today).daily)
  {
    var r := RolloverPenalty(s, today);
    PenaltyKeeps(s, r, today);
    var rolled := FailurePenalty(r, today);
    PenaltyKeeps(r, rolled, today);
    var d := EnsureDaily(rolled.daily, today);
    assert rolled.daily == s.daily;
    if d.actions == s.daily.actions && d.bonusCategories == s.daily.bonusCategories {
      SameFlagsConsistent(catalog, s.daily, d);
    } else {
      assert d.bonusCategories == map[];
    }
  }

  /** `GOAL_COMPLETE` keeps the bonus flags consistent, given unique keys. */
  lemma GoalCompleteConsistent(cfg: Config, n: State, goal: string, env: Env)
    requires UniqueKeys(cfg.catalog) && BonusConsistent(cfg.catalog, n.daily)
    ensures var t := GoalCompleteStep(cfg, n, goal, env);
      t.next.Some? ==> BonusConsistent(cfg.catalog, t.next.value.daily)
  {
    GoalCompleteChecks(cfg, n, goal, env);
    if GoalCompleteStep(cfg, n, goal, env).next.Some? {
      var d := n.daily.(goalsDone := n.daily.goalsDone[goal := true]);
      SameFlagsConsistent(cfg.catalog, n.daily, d);
      UnlockConsistent(cfg.catalog, d, goal);
      GoalCompleteRewards(cfg, n, goal, env);
    }
  }

  /** `DAILY_DO_ACTION` keeps the bonus flags consistent. */
  lemma DailyDoActionConsistent(cfg: Config, n: State, key: string, env: Env)
    requires BonusConsistent(cfg.catalog, n.daily)
    ensures var t := DailyDoActionStep(cfg, n, key, env);
      t.next.Some? ==> BonusConsistent(cfg.catalog, t.next.value.daily)
  {
    DailyDoActionChecks(cfg, n, key, env);
    if DailyDoActionStep(cfg, n, key, env).next.Some? {
      MarkConsistent(cfg.catalog, n.daily, key);
      DailyDoActionRewards(cfg, n, key, env);
    }
  }

  /** `DAILY_SKIP` keeps the bonus flags consistent. */
  lemma DailySkipConsistent(cfg: Config, n: State, env: Env)
    requires BonusConsistent(cfg.catalog, n.daily)
    ensures var t := DailySkipStep(cfg, n, env);
      t.next.Some? ==> BonusConsistent(cfg.catalog, t.next.value.daily)
  {
    DailySkipChecks(cfg, n, env);
    if DailySkipStep(cfg, n, env).next.Some? {
      DailySkipSpends(cfg, n, env);
      SameFlagsConsistent(cfg.catalog, n.daily, n.daily.(skipUsed := JBool(true)));
    }
  }

  /** Every step keeps the bonus flags consistent, given unique keys. */
  lemma StepConsistent(cfg: Config, n: State, action: Action, env: Env)
    requires UniqueKeys(cfg.catalog) && BonusConsistent(cfg.catalog, n.daily)
    ensures var t := Step(cfg, n, action, env);
      t.next.Some? ==> BonusConsistent(cfg.catalog, t.next.value.daily)
  {
    match action
    case Revive =>
      assert FreshDaily(env.today).bonusCategories == map[];
    case GoalsSet(key, value) =>
      SameFlagsConsistent(cfg.catalog, n.daily, GoalsSetState(n, key, value, env.today).daily);
    case GoalsSetAll(payload) =>
      SameFlagsConsistent(cfg.catalog, n.daily, GoalsSetAllState(n, payload, env.today).daily);
    case GoalComplete(goal) => GoalCompleteConsistent(cfg, n, goal, env);
    case DailySkip => DailySkipConsistent(cfg, n, env);
    case DailyDoAction(key) => DailyDoActionConsistent(cfg, n, key, env);
    case _ => StepKeepsRecord(cfg, n, action, env);
  }

  /** Apart from `REVIVE`, the goal cases, `DAILY_SKIP` and
      `DAILY_DO_ACTION`, no step touches today's record. */
  lemma StepKeepsRecord(cfg: Config, n: State, action: Action, env: Env)
    requires !(action.Revive? || action.GoalsSet? || action.GoalsSetAll? || action.GoalComplete?
               || action.DailySkip? || action.DailyDoAction?)
    ensures var t := Step(cfg, n, action, env);
      t.next.Some? ==> t.next.value.daily == n.daily
  {
  }

  /** A category's bonus flag is only ever set while all of its actions are
      done: every dispatch keeps this, given a catalog without duplicate keys. */
  lemma DispatchConsistent(cfg: Config, s: State, action: Action, env: Env)
    requires UniqueKeys(cfg.catalog) && BonusConsistent(cfg.catalog, s.daily)
    ensures BonusConsistent(cfg.catalog, Commit(s, Reduce(cfg, s, action, env)).daily)
  {
    NormalizeConsistent(cfg.catalog, s, env.today);
    StepConsistent(cfg, Normalize(s, env.today), action, env);
  }

  /** A store created with the one-time migration starts with consistent
      bonus flags. */
  lemma CreatedConsistent(cfg: Config, initial: State, env: Env)
    ensures BonusConsistent(cfg.catalog, Created(cfg, initial, env, true).daily)
  {
  }
}
