# LifetimeLeveling state engine in Dafny

LifetimeLeveling is a self-improvement game. The player sets daily goals
(exercise minutes, steps, water, study, reading), completes them, and does
optional extra actions from a fixed catalog. Doing these earns experience
(XP). XP raises the player's level, each level-up pays one skip token, and
achievements pay extra XP. Every day that ends without the daily mission done
costs life. A player at zero life is defeated until they revive.

This project models the engine behind the game:

- the levelling curve and `addXp`, in `leveling.dfy`;
- today's record (`ensureDaily`, `hasDoneAction`, `markActionDone`), in `daily.dfy`;
- the action catalog and its category queries, in `actions_catalog.dfy`;
- the achievement table, the mission streak, progress and granting, in `achievements.dfy`;
- the store's life penalties and history archive, in `penalties.dfy`;
- the achievement-reward and healing pipeline, in `rewards.dfy`;
- the weekly training plan edits, in `training.dfy`;
- the `dispatch` reducer as pure functions, in `reducer.dfy`;
- the store object itself, in `store.dfy`: a class with one mutable `state`,
  `setState` and `dispatch`;
- the facts about whole dispatches, in `dispatch_facts.dfy`;
- the helpers of the to-do list, in `tasks.dfy`;
- the numbers of the stats screen, in `stats.dfy`.

Days are whole numbers, and "today" is a parameter. The clock value stamped
on achievements and tasks, and the ids of new training items and tasks, are
parameters too. They are bundled as `Reducer.Env(today, now, freshId)`.

The source's `while` loops and its `forEach` loops with accumulators are
methods. Each is proved equal to a recursive specification function. These
are `addXp`, the streak walk, both achievement sweeps, the failure catch-up,
the `splice` moves of a training reorder, `actionsByCategory` and the stats
counting by category. The properties are then proved about those functions.
Some loops are expressions instead:
- the `reduce` sums over days are recursive functions;
- the two `forEach` loops of `GOALS_SET_ALL` are map comprehensions;
- the `forEach(delete …)` of a goal unlock is a set difference.

The store's `dispatch` is `Store.Store.Dispatch`. Its contract ties the new state to
`Reducer.Commit(old(state), Reducer.Reduce(Tables(), old(state), action, env))`.
The lemmas of `DispatchFacts` state what each action does in those terms.

## Model

| member | source | states |
|---|---|---|
| Base.Trim | src/state/store.js:538-543 | `trim()` leaves no white space at either end, is empty exactly when the input is all white space, and returns an already trimmed input unchanged |
| Base.TrimIsSlice | src/core/tasks.js:1-3 | the trimmed string is the slice of the input between a leading and a trailing run of white space |
| Leveling.XpNeededIsRounded | src/core/leveling.js:6-12 | the integer curve `(32L(150+L)+5)/10` equals `Math.round(400 * L * (1 + L/150) * 1.2)` for every level L |
| Leveling.ScaledXpIsRounded | src/core/leveling.js:6-8 | the integer XP scaling equals `Math.round(base * (1 + L/150))` |
| Leveling.GoalXpFormula | src/core/leveling.js:1-8 | a completed goal is worth `(600 + 4L + 3)/6` XP at level L |
| Leveling.XpNeededPositive | src/core/leveling.js:10-12 | from level 1 on, a level needs at least 483 XP, so the level-up loop always ends |
| Leveling.XpNeededStrictlyIncreasing | src/core/leveling.js:10-12 | each level needs strictly more XP than the one before |
| Leveling.LifeForLevelBounds | src/core/leveling.js:31-35 | maximum life is 100 up to level 1, never below 100, and strictly increasing from level 1 |
| Leveling.LevelsAfterSpec | src/core/leveling.js:14-29 | after adding XP, the level never drops and the leftover XP is below the next threshold; the level-ups are exactly the levels passed; the XP spent plus the leftover equals the XP available; XP below the threshold changes nothing |
| Leveling.LevelsBetweenAppend | src/core/leveling.js:18-23 | the level-ups of two consecutive climbs concatenate to the level-ups of the whole climb |
| Leveling.AddXp | src/core/leveling.js:14-29 | the `while` loop computes the specified climb: final level and leftover XP, one level-up per threshold crossed, and XP conserved |
| Leveling.AddXpExamples | src/core/leveling.js:14-29 | adding 0 below the threshold changes nothing; exactly `xpNeeded(1)` at level 1 gives level 2 with 0 XP and level-ups `[2]` |
| DailyRecord.EnsureDaily | src/core/daily.js:3-25 | the result is dated today; a record of another day becomes a fresh empty one; a record with a non-boolean action flag loses its action and bonus flags; a non-boolean skip flag becomes false; a well-formed record of today is kept |
| DailyRecord.EnsureDailyIdempotence | src/core/daily.js:3-25 | normalising twice settles; normalising twice equals normalising once, except exactly when today's record has both a non-boolean action flag and a non-boolean skip flag |
| DailyRecord.EnsureDailyNotIdempotent | src/core/daily.js:10-22 | a concrete record whose skip flag survives the first pass and is reset by the second |
| DailyRecord.MarkActionDone | src/core/daily.js:27-36 | the marked action counts as done and is stored as `true`; no other flag changes and nothing else in the record changes |
| ActionsCatalog.CatalogWellFormed | src/core/actionsCatalog.js:1-13 | the catalog keys are distinct, every action pays positive XP, and every category is one of the four |
| ActionsCatalog.FindByKey | src/core/actionsCatalog.js:15-17 | absent exactly when no entry has the key; otherwise the first entry with that key |
| ActionsCatalog.GetActionByKey | src/core/actionsCatalog.js:15-17 | the lookup in the real catalog returns a catalog entry with that key, or nothing exactly when no entry has it |
| ActionsCatalog.GetCategoryForAction | src/core/actionsCatalog.js:19-22 | a category exactly when the key is known, and then it is that action's category |
| ActionsCatalog.FilterCategoryMembers | src/core/actionsCatalog.js:24-26 | the filter keeps exactly the actions of the category |
| ActionsCatalog.ActionsForCategory | src/core/actionsCatalog.js:24-26 | the actions listed for a category are exactly the catalog's actions of that category |
| ActionsCatalog.CatalogFilters | src/core/actionsCatalog.js:1-26 | each category's list is its contiguous block of the catalog, in catalog order |
| ActionsCatalog.CategoryOrderDistinct | src/core/actionsCatalog.js:28-35 | the category order lists each category only once |
| ActionsCatalog.CategoryOrderMembers | src/core/actionsCatalog.js:28-35 | the first-seen order lists exactly the categories that occur |
| ActionsCatalog.ActionsByCategory | src/core/actionsCatalog.js:28-35 | the grouping loop yields the four categories in first-seen order, each group is that category's actions in catalog order, and concatenated the groups give back the catalog |
| Achievements.RewardXp | src/core/achievements.js:28-65 | every achievement pays at least 100 XP, and exactly the unknown kinds pay 150 |
| Achievements.RewardXpMonotone | src/core/achievements.js:28-65 | within one kind, a higher target never pays less |
| Achievements.GoalsSnapshot | src/core/achievements.js:74-91 | an archived day is read from the archive; today without an archive entry is read from the live state; any other day is empty |
| Achievements.CompletedGoals | src/core/achievements.js:93-99 | the goals counted as completed are among the goals with a positive target |
| Achievements.MissionCompleteSpec | src/core/achievements.js:93-99 | a day's mission is complete exactly when the skip was used or at least 4 active goals are done; with no active goals and no skip it is never complete |
| Achievements.CompleteDayIsKnown | src/core/achievements.js:74-99 | only archived days and today can be complete, which is why the streak walk ends |
| Achievements.StreakFromSpec | src/core/achievements.js:113-121 | the streak from a day is a run of complete days ending there, and the day before the run is not complete |
| Achievements.GetMissionStreak | src/core/achievements.js:101-122 | the loop counts the consecutive complete days ending today, or yesterday when today is not complete, and stops at the first incomplete day |
| Achievements.CountDone | src/core/achievements.js:124-127 | the number of true flags is at most the number of keys, and equals it exactly when every flag is true |
| Achievements.TruthySubset | src/core/achievements.js:124-127 | the keys flagged true are at most all the keys, and are all of them exactly when every flag is true |
| Achievements.HistoryDays | src/core/achievements.js:129-137 | entry `i` is the archived day with the `i`-th smallest key, so every archived day appears exactly once |
| Achievements.TotalsOfEmptyHistory | src/core/achievements.js:129-137 | with no archived days, the goal and action totals are 0 |
| Achievements.GoalsSumWithout | src/core/achievements.js:129-132 | any one archived day's done goals can be taken out of the total, whatever its position in the day order |
| Achievements.ActionsSumWithout | src/core/achievements.js:134-137 | any one archived day's done actions can be taken out of the total, whatever its position in the day order |
| Achievements.TotalsAddDay | src/core/achievements.js:124-137 | archiving a new day adds exactly that day's done goals and done actions to the totals |
| Achievements.SafeTarget | src/core/achievements.js:158 | the target used for the percentage is at least 1 and at least the real target |
| Achievements.Percent | src/core/achievements.js:158-160 | the percentage is at most 100, is 100 once the target is reached, and is not negative for a non-negative count |
| Achievements.PercentIsRounded | src/core/achievements.js:158-160 | the integer percentage equals `Math.min(100, Math.round(current / max(1, target) * 100))` |
| Achievements.AchievementProgress | src/core/achievements.js:139-161 | the counter of a level rule is the level, of a streak rule the mission streak, of a goals rule the total goals done, of an actions rule the total actions done, otherwise 0; the percentage is at most 100 |
| Achievements.Stamp | src/core/achievements.js:171-175 | one entry per granted rule, with its id and title and the given timestamp |
| Achievements.EarnedOf | src/core/achievements.js:193-200 | one reward entry per granted rule, paying that rule's XP |
| Achievements.GrantedSpec | src/core/achievements.js:163-181 | a sweep grants only met rules not held before, never grants an id twice, and leaves every met rule of the table held |
| Achievements.GrantedNothing | src/core/achievements.js:163-181 | when every met rule is already held, nothing is granted |
| Achievements.IdsAppend | src/core/achievements.js:165-176 | after appending the stamped rules, the held ids are the old ones plus the granted rules' ids |
| Achievements.GrantAchievements | src/core/achievements.js:163-181 | the loop appends exactly the specified grants to the current list, in table order, and keeps the old list as a prefix |
| Achievements.GrantAchievementRewards | src/core/achievements.js:183-206 | the loop returns the extended list, one reward entry per grant, and the sum of their XP |
| Achievements.GrantIdempotent | src/core/achievements.js:163-206 | a second sweep right after the first grants nothing, changes nothing and pays 0 XP |
| Achievements.SumXpOfEarned | src/core/achievements.js:183-206 | every grant pays at least 100 XP; no grant pays 0 |
| Penalties.LifePenalty | src/state/store.js:17-20 | a failed day costs at least 12 life |
| Penalties.LifePenaltyIsRounded | src/state/store.js:17-20 | the integer penalty equals `Math.round(10 + max(1, level) * 1.5)` |
| Penalties.LifePenaltyMonotone | src/state/store.js:17-20 | the penalty never falls as the level rises, and is 12 up to level 1 |
| Penalties.EnsureLifeState | src/state/store.js:30-50 | the result has life within `[0, lifeForLevel(level)]`; only the current life changes; non-positive life becomes 0, life above the maximum becomes the maximum, and bounded life is kept |
| Penalties.EnsureLifeStateIdempotent | src/state/store.js:30-50 | clamping twice is clamping once |
| Penalties.UpdateHistorySpec | src/state/store.js:59-72 | archiving with no date changes nothing; otherwise it adds only that day, keeps every archived day, and stores the snapshot only under a day that had no entry |
| Penalties.UpdateHistoryWriteOnce | src/state/store.js:59-72 | archiving the same day a second time changes nothing |
| Penalties.FailedSpec | src/state/store.js:91-92 | a day failed exactly when it had active goals, no skip, and fewer than 4 of them done; a day with no record fails exactly when there are active goals |
| Penalties.PenaltyStep | src/state/store.js:93-110 | the day is recorded as charged; a kept day changes no life; a failed day costs the penalty, floored at 0; reaching 0 records the defeat date; life never rises |
| Penalties.RolloverSpec | src/state/store.js:74-111 | a current or already-charged record is left alone; a stale uncharged record is archived write-once and charged once when failed; only life and history change; life stays bounded; a second rollover changes nothing |
| Penalties.LatestHistoryKey | src/state/store.js:117-118 | the latest archived day is an archived day, and no archived day is later |
| Penalties.ApplyDailyFailurePenalty | src/state/store.js:113-200 | the method computes the specified catch-up over every day from the seed day to yesterday |
| Penalties.CatchUp | src/state/store.js:141-197 | the day-by-day loop equals the recursive catch-up |
| Penalties.ProcessDay | src/state/store.js:142-196 | one loop iteration archives and charges one day as specified |
| Penalties.CatchUpSpec | src/state/store.js:113-200 | the catch-up keeps life bounded and never raises it; only life and history change; every archived day is kept; after any work the last charged day is yesterday; with nothing to do nothing changes |
| Penalties.AbsentDaysPenalty | src/state/store.js:141-197 | with active goals, each unrecorded day costs one full penalty: `n` days cost `n * penalty`, floored at 0 |
| Penalties.FailurePenaltyIdempotent | src/state/store.js:113-200 | running the catch-up twice on the same day is running it once |
| Rewards.ApplyLevelUpHealing | src/state/store.js:220-225 | without a level-up nothing changes; with one, life is refilled to the new level's maximum; nothing else changes |
| Rewards.ApplyAchievementRewards | src/state/store.js:202-218 | the method computes the specified sweep-and-pay step |
| Rewards.PayReward | src/state/store.js:207-217 | paying a reward is the specified climb, token and healing update |
| Rewards.RewardSweepSpec | src/state/store.js:202-218 | the sweep extends the achievement list, keeps the old list as a prefix, and its XP is the sum of its reward entries, never negative |
| Rewards.ApplyRewardSpec | src/state/store.js:207-217 | after paying, tokens rise by the number of level-ups, the level-ups are the levels passed, life is refilled exactly when a level was gained, and only progress, tokens, achievements and life change |
| Rewards.AchievementRewardsSpec | src/state/store.js:202-218 | the same, for the whole step; the XP paid is the sum of the reward entries; the leftover XP stays below the threshold |
| Rewards.GainXp | src/state/store.js:402-414 | the shared tail of a rewarded action pays the XP and then the achievements: one token per level-up, level-ups are the levels passed, healing on a level-up, leftover XP below the threshold |
| Rewards.GainXpStages | src/state/store.js:402-414 | the tail is `addXp` followed by `applyAchievementRewards` and healing, in that order |
| Rewards.CombineSpec | src/state/store.js:412-414 | chaining the XP climb and the achievement step keeps the level-up and token accounting exact |
| Training.SafeDone | src/state/store.js:450-454 | a done-count is never negative, and a non-negative count is kept |
| Training.AddItem | src/state/store.js:455-457 | the new item goes first in its day's list, and every other day is unchanged |
| Training.WithoutIdMembers | src/state/store.js:462-473 | removal keeps exactly the items with another id |
| Training.WithoutIdAbsent | src/state/store.js:462-473 | removing an id no item carries changes nothing |
| Training.Rewrite | src/state/store.js:476-490 | an update keeps the length and every id |
| Training.SetDone | src/state/store.js:493-506 | setting a done-count keeps the length and every id |
| Training.EditsSpec | src/state/store.js:476-506 | updates touch only the items with that id, set exactly the given fields, and are idempotent |
| Training.IndexOfId | src/state/store.js:517-519 | `findIndex`: -1 exactly when no item has the id, otherwise the first such position |
| Training.InsertIndex | src/state/store.js:526-529 | the insertion position is clamped to the list |
| Training.RemoveSpec | src/state/store.js:521 | `splice(i, 1)` takes out exactly one item, and putting it back restores the list |
| Training.InsertSpec | src/state/store.js:530 | `splice(i, 0, x)` adds exactly `x` at position `i`, and taking it out restores the list |
| Training.ReorderedIsPermutation | src/state/store.js:520-531 | the moved list is a permutation of the old one, with the moved item at its landing position and the rest in their old order |
| Training.TakeOut | src/state/store.js:521 | the in-place `splice(from, 1)` on an array leaves the specified shorter list in its first cells |
| Training.PutBack | src/state/store.js:530 | the in-place `splice(at, 0, x)` on an array leaves the specified longer list |
| Training.ReorderDay | src/state/store.js:520-531 | the array moves compute the specified reordering |
| Training.ReorderTraining | src/state/store.js:508-536 | the method returns the specified week, or nothing for every early return |
| Training.ReorderWeekSpec | src/state/store.js:508-536 | an installed reorder keeps the same items on that day, really changes their order, and leaves every other day alone |
| Training.ReorderOntoItself | src/state/store.js:517-532 | moving an item onto itself installs nothing |
| Reducer.NormalizeSpec | src/state/store.js:287-289 | before any action, today's record is dated today with boolean action flags; only life, history and the record change; every archived day is kept; a bounded life stays bounded and never rises |
| Reducer.PenaltyKeeps | src/state/store.js:74-200 | both penalty passes touch only life and history, keep every archived day, and never add life to a bounded state |
| Reducer.NormalizeKeepsToday | src/core/daily.js:3-25 | an already normalised record of today survives dispatch normalisation, apart from the skip flag being made boolean |
| Reducer.UnlockSpec | src/state/store.js:387-399 | completing a goal that unlocks a category clears that category's action flags and its bonus flag; every other flag and the rest of the record are kept; other goals change nothing |
| Reducer.CatalogUnlocks | src/state/store.js:9-14 | every unlockable category has actions in the catalog |
| Reducer.BonusSpec | src/state/store.js:555-567 | marking an action pays the 10 XP bonus exactly when its category was unflagged and is now all done; paying flags the category; a flagged category pays nothing; nothing else changes |
| Reducer.MarkConsistent | src/state/store.js:555-567 | marking keeps "a category is flagged only when all its actions are done" |
| Reducer.KeysOfOtherCategory | src/core/actionsCatalog.js:1-13 | with distinct keys, an action of one category is not a key of another |
| Reducer.UnlockConsistent | src/state/store.js:387-399 | unlocking keeps the bonus flags consistent with the action flags |
| Reducer.DailyDoActionUnfolds | src/state/store.js:545-592 | once the checks pass, the action step is the marked record paid at `round((xp + bonus) * multiplier)` |
| DispatchFacts.GoalCompleteChecks | src/state/store.js:370-382 | completing a goal fails with "dead" exactly when defeated; is silent exactly for an empty key; fails "already_done" and "not_set" exactly in the source's order; installs a state exactly when all checks pass, and then reports a reward |
| DispatchFacts.GoalCompleteRewards | src/state/store.js:383-421 | a completed goal pays `(600 + 4L + 3)/6` XP with exact level and token accounting, and is flagged done in today's record and today's archive entry |
| DispatchFacts.DailyDoActionChecks | src/state/store.js:545-553 | doing an action fails "dead" exactly when defeated; is silent exactly for an unknown key; fails "already_done" exactly when already done; installs a state exactly when all checks pass |
| DispatchFacts.DailyDoActionRewards | src/state/store.js:555-591 | a done action is flagged, the record is the marked one, and the XP paid is the action's XP plus the bonus, scaled by the level |
| DispatchFacts.DailySkipChecks | src/state/store.js:424-428 | the skip fails "dead", "no_tokens" and "already_used" exactly in the source's order, and installs a state exactly otherwise |
| DispatchFacts.DailySkipSpends | src/state/store.js:429-443 | a skip spends one token (plus any earned by achievements), flags the skip in the record and the archive, and changes nothing else in the record |
| DispatchFacts.NoSecondSkip | src/state/store.js:424-437 | after a successful skip, a second skip on the same day fails and changes nothing |
| DispatchFacts.SkipRefusedOnceUsed | src/state/store.js:428 | a record of today whose skip is used refuses the skip |
| DispatchFacts.NoRepeatAction | src/state/store.js:545-553 | after an action is done, doing it again on the same day fails and changes nothing |
| DispatchFacts.ActionCommitted | src/state/store.js:555-585 | a committed action leaves today's record dated today, with boolean flags, the action marked, and the bonus rule applied |
| DispatchFacts.ActionInstalled | src/state/store.js:555-585 | the same, for one step on a normalised state |
| DispatchFacts.ActionRefusedOnceDone | src/state/store.js:551-553 | a record of today where the known action is done refuses it |
| DispatchFacts.MarkKeepsBooleans | src/core/daily.js:31-36 | marking keeps every action flag boolean |
| DispatchFacts.BonusPaidOnce | src/state/store.js:558-567 | after an action pays a category bonus, another action of that category on the same day pays no bonus |
| DispatchFacts.FlaggedPaysNothing | src/state/store.js:558 | a flagged category pays no bonus after normalisation |
| DispatchFacts.ReviveResets | src/state/store.js:296-306 | revive installs level 1 with 0 XP, 0 tokens, no achievements, a fresh record and full life; the player is no longer defeated; user, goals, training and the archive are kept |
| DispatchFacts.GoalsSetSpec | src/state/store.js:328-345 | setting one goal writes its value (0 for a non-number), keeps the other goals, clears that goal's done flag whether or not the value changed, and rewrites today's archive entry |
| DispatchFacts.GoalsSetAllSpec | src/state/store.js:347-368 | setting many goals writes each given value, keeps the rest, and clears a done flag exactly when that goal is new or its value changed |
| DispatchFacts.GoalsSetAsymmetry | src/state/store.js:328-368 | re-setting a done goal to its own value clears its flag with the single-goal action but keeps it with the all-goals action |
| DispatchFacts.UserSetNameSpec | src/state/store.js:538-543 | the name is installed trimmed exactly when it is not blank; a blank name changes nothing |
| DispatchFacts.TrainingRemoveSpec | src/state/store.js:462-474 | with an id and a day, the day's list loses every item with that id and gains nothing, and other days are unchanged; otherwise nothing happens |
| DispatchFacts.TrainingAddSpec | src/state/store.js:446-460 | with a name and reps, the new item goes first on its day (Monday by default) and other days are unchanged; otherwise nothing happens |
| DispatchFacts.FailuresChangeNothing | src/state/store.js:286-597 | an action that reports an error installs nothing, and only goal completion, skips and actions report errors |
| DispatchFacts.ActionsUniqueKeys | src/core/actionsCatalog.js:1-13 | the real catalog has distinct keys |
| DispatchFacts.NormalizeConsistent | src/state/store.js:287-289 | normalisation keeps bonus flags consistent with action flags |
| DispatchFacts.GoalCompleteConsistent | src/state/store.js:370-422 | completing a goal keeps bonus flags consistent |
| DispatchFacts.DailyDoActionConsistent | src/state/store.js:545-592 | doing an action keeps bonus flags consistent |
| DispatchFacts.DailySkipConsistent | src/state/store.js:424-444 | a skip keeps bonus flags consistent |
| DispatchFacts.StepConsistent | src/state/store.js:291-596 | every action keeps bonus flags consistent |
| DispatchFacts.StepKeepsRecord | src/state/store.js:292-543 | the developer, training and user-name actions never touch today's record |
| DispatchFacts.DispatchConsistent | src/state/store.js:286-597 | a whole dispatch keeps "a category is flagged only when all its actions are done" |
| DispatchFacts.CreatedConsistent | src/state/store.js:232-253 | a store created with the unlock migration starts with consistent bonus flags |
| Store.Normalized | src/state/store.js:288-289 | the dispatch prologue computes the specified normalisation |
| Store.Gain | src/state/store.js:402-414 | the rewarded tail computes the specified pipeline |
| Store.Handle | src/state/store.js:291-596 | the `switch` computes the reducer's step for every action |
| Store.CompleteGoal | src/state/store.js:370-422 | the goal case computes the specified step |
| Store.DoAction | src/state/store.js:545-592 | the action case computes the specified step |
| Store.RewardAction | src/state/store.js:569-591 | the action's reward tail computes the specified step |
| Store.Skip | src/state/store.js:424-444 | the skip case computes the specified step |
| Store.Store.constructor | src/state/store.js:245-253 | creation normalises, migrates when asked, grants the met achievements without reward XP, and clamps life |
| Store.Store.SetState | src/state/store.js:267-271 | the installed state is the clamped one, so life is always bounded |
| Store.Store.Dispatch | src/state/store.js:286-597 | the new state is the reducer's result clamped, or the old state when the case returns early; the reported outcome is the reducer's; life stays bounded |
| Tasks.AddTask | src/core/tasks.js:1-14 | a blank text leaves the list alone; otherwise exactly one new, not-done task with the trimmed text goes in front of the old list |
| Tasks.MarkTaskDone | src/core/tasks.js:16-22 | same length and order; every task with the id is done and stamped; every other task is unchanged |
| Tasks.PendingTasks | src/core/tasks.js:24-26 | the pending list holds exactly those tasks that are not done |
| Tasks.PendingAppend | src/core/tasks.js:24-26 | the filter keeps the original order |
| Tasks.PendingAfterMark | src/core/tasks.js:16-26 | after marking an id done, no pending task carries that id |
| Tasks.PendingMarkOthers | src/core/tasks.js:16-26 | after marking an id done, the pending list is exactly the tasks that were pending and carry another id, in their original order |
| Tasks.PendingAfterAdd | src/core/tasks.js:1-26 | a new task is the first pending task |
| Stats.GetDays | src/ui/statsView.js:7-18 | the counted days are every archived day once, in key order, plus the live record last when today is not archived yet |
| Stats.CountGoalDone | src/ui/statsView.js:20-22 | the count is between 0 and the number of days; it is 0 exactly when no day has the goal done, and full exactly when every day has |
| Stats.CategoryDays | src/ui/statsView.js:24-45 | a category is counted at most once per day |
| Stats.DayCategoriesSpec | src/ui/statsView.js:31-39 | a category counts on a day exactly when some catalog action of it is flagged true that day |
| Stats.CategoriesOfDay | src/ui/statsView.js:32-39 | the inner loop collects exactly that day's categories |
| Stats.CountActionDaysByCategory | src/ui/statsView.js:24-45 | every category has a total, and each total is the number of days on which the category was practised |
| Stats.ScoreToLevel | src/ui/statsView.js:47-53 | a negative score counts as 0; every 10 points make one level; the remainder is the progress, shown as a percentage between 0 and 100 |
| Stats.ScoreToLevelMonotone | src/ui/statsView.js:47-53 | a higher score never gives a lower level |
| Stats.LifeBonus | src/ui/statsView.js:67-68 | the bonus is not negative and is the extra maximum life over 100, divided by 10 and rounded |
| Stats.StatScores | src/ui/statsView.js:60-74 | the five scores are not negative, and each is its weighted sum of goal counts, category days and the life bonus |

## Left out

- Rendering, the DOM, toasts and every view module are left out. Of the stats screen, only the numbers are modelled.
- The date module is replaced by a `today` day number. The clock and random ids are replaced by `Reducer.Env`.
- Local storage is left out: `saveState`, `loadState` and the migration flag. The unlock migration is a boolean parameter of the constructor, which says whether the flag is still unset for this user.
- `subscribe` and the listeners are left out. `getState` is the `state` field.
- Non-finite and non-numeric payloads are modelled as `None` and become 0, as in the source. Fractional numbers are not modelled: levels, XP, tokens, life and goal targets are integers.
- The source's floating-point `Math.round` is modelled by exact integer formulas. Lemmas prove each formula equal to the real-number rounding, for example `Leveling.XpNeededIsRounded`. Binary floating-point error is not modelled.
- The engine's JavaScript objects become maps that hold only their own keys. A key that names an inherited `Object.prototype` property, such as `"toString"`, is absent from the map, while the source reads the inherited function. For example, `GOAL_COMPLETE` with such a key returns `"not_set"` in the model and `"already_done"` in the source. The user interface never sends such keys.
- Category names are an enumeration of the four catalog categories. An unknown category string cannot be represented.
- `Object.values` of the history is modelled in ascending day order, not in insertion order. Only sums and counts are read from it. `Achievements.TotalsAddDay` shows that an archived day adds its own counts wherever it falls in that order.
- Flags are kept only as their truthiness. `goalsDone` and `bonusCategories` are maps to booleans. Archived snapshots store `actions` as truthiness, while the source copies the raw values. Only today's `actions` and `skipUsed` keep the value's kind, because `ensureDaily` tests for booleans. Every reader of the other flags tests only truthiness.
- `DailyRecord.EnsureDaily`: normalising is not idempotent. A record of today with both a non-boolean action flag and a non-boolean skip flag keeps the bad skip flag on the first pass. The second pass resets it. `DailyRecord.EnsureDailyNotIdempotent` exhibits such a record.
- `DispatchFacts.GoalsSetSpec`: `GOALS_SET` clears the goal's done flag on every call. `GOALS_SET_ALL` clears it only for a new or changed value (see `DispatchFacts.GoalsSetAsymmetry`).
- `DispatchFacts.BonusPaidOnce` is stated for two consecutive dispatches on the same day. Completing an unlocking goal in between clears the category's bonus flag, and the bonus can then be earned again, as in the source.
- `DispatchFacts.DispatchConsistent` requires catalog keys are distinct. `DispatchFacts.ActionsUniqueKeys` proves this for the real catalog.
- `DispatchFacts.CreatedConsistent` is stated only for a store created with the migration. Without it, the restored record is taken as it was stored.
- `Stats.GetDays`: the live record appended for today carries a skip flag, which the stats never read.
- `Stats.CategoryDays` states only the bound in its own contract. Its meaning per day is `Stats.DayCategoriesSpec`, and `Stats.CountActionDaysByCategory` ties the totals to it.
