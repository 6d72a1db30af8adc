/** The achievements engine (src/core/achievements.js): the ordered rule
    table, reward tiers, the mission-complete predicate, the backward streak
    walk, history totals, progress reports, and append-only granting. The
    clock is the `today` parameter and `earnedAt` is passed in. */
module Achievements {
  import opened Base
  import opened Leveling
  import opened Model

  datatype RuleKind = LevelRule | StreakRule | GoalsRule | ActionsRule | OtherRule

  /** One entry of `ACHIEVEMENTS`. */
  datatype Rule = Rule(id: string, title: string, kind: RuleKind, target: int)

  const Rules: seq<Rule> := [
    Rule("level_2", "Primer salto: nivel 2", LevelRule, 2),
    Rule("level_5", "Racha fuerte: nivel 5", LevelRule, 5),
    Rule("level_10", "Doble digito: nivel 10", LevelRule, 10),
    Rule("level_25", "Maestria: nivel 25", LevelRule, 25),
    Rule("level_50", "Leyenda: nivel 50", LevelRule, 50),
    Rule("level_100", "Eterno: nivel 100", LevelRule, 100),
    Rule("streak_3", "Constancia inicial: racha 3", StreakRule, 3),
    Rule("streak_7", "Una semana completa", StreakRule, 7),
    Rule("streak_14", "Dos semanas seguidas", StreakRule, 14),
    Rule("streak_30", "Mes perfecto", StreakRule, 30),
    Rule("streak_60", "Dos meses impecables", StreakRule, 60),
    Rule("streak_100", "Cien dias sin parar", StreakRule, 100),
    Rule("goals_10", "10 objetivos completos", GoalsRule, 10),
    Rule("goals_50", "50 objetivos completos", GoalsRule, 50),
    Rule("goals_150", "150 objetivos completos", GoalsRule, 150),
    Rule("goals_300", "300 objetivos completos", GoalsRule, 300),
    Rule("goals_600", "600 objetivos completos", GoalsRule, 600),
    Rule("actions_20", "20 objetivos extra", ActionsRule, 20),
    Rule("actions_100", "100 objetivos extra", ActionsRule, 100),
    Rule("actions_300", "300 objetivos extra", ActionsRule, 300),
    Rule("actions_600", "600 objetivos extra", ActionsRule, 600),
    Rule("actions_1200", "1200 objetivos extra", ActionsRule, 1200)
  ]

  // ---------------------------------------------------------------- rewards

  /** `getAchievementRewardXp(achievement)`: a tier per kind, 150 for an unknown kind. */
  function RewardXp(kind: RuleKind, target: int): (r: int)
    ensures r >= 100
    ensures kind == OtherRule <==> r == 150
  {
    match kind
    case LevelRule =>
      if target <= 2 then 120 else if target <= 5 then 220 else if target <= 10 then 420
      else if target <= 25 then 900 else if target <= 50 then 1800 else if target <= 100 then 3500
      else 5000
    case StreakRule =>
      if target <= 3 then 100 else if target <= 7 then 200 else if target <= 14 then 380
      else if target <= 30 then 700 else if target <= 60 then 1300 else if target <= 100 then 2200
      else 3000
    case GoalsRule =>
      if target <= 10 then 120 else if target <= 50 then 300 else if target <= 150 then 600
      else if target <= 300 then 1000 else if target <= 600 then 1600 else 2400
    case ActionsRule =>
      if target <= 20 then 120 else if target <= 100 then 320 else if target <= 300 then 700
      else if target <= 600 then 1200 else if target <= 1200 then 2000 else 2800
    case OtherRule => 150
  }

  /** Within one kind, a harder target is never worth less. */
  lemma RewardXpMonotone(kind: RuleKind, t1: int, t2: int)
    requires t1 <= t2
    ensures RewardXp(kind, t1) <= RewardXp(kind, t2)
  {
  }

  // ------------------------------------------------------- mission of a day

  /** What `getGoalsSnapshot` returns. */
  datatype Mission = Mission(goals: map<string, int>, goalsDone: map<string, bool>, skipUsed: bool)

  /** `getGoalsSnapshot(state, key)`: the archived day if there is one, else the
      live goals of today, else an empty day. */
  function GoalsSnapshot(s: State, today: Day, key: Day): (r: Mission)
    ensures key in s.history ==>
      r == Mission(s.history[key].goals, s.history[key].goalsDone, s.history[key].skipUsed)
    ensures key !in s.history && key == today ==>
      r == Mission(s.goals, s.daily.goalsDone, Truthy(s.daily.skipUsed))
    ensures key !in s.history && key != today ==> r == Mission(map[], map[], false)
  {
    if key in s.history then
      var h := s.history[key];
      Mission(h.goals, h.goalsDone, h.skipUsed)
    else if key == today then Mission(s.goals, s.daily.goalsDone, Truthy(s.daily.skipUsed))
    else Mission(map[], map[], false)
  }

  /** The goals with a positive target. */
  function ActiveGoals(goals: map<string, int>): set<string> {
    set k | k in goals && goals[k] > 0
  }

  /** The goals with a positive target that are marked done. */
  function CompletedGoals(goals: map<string, int>, goalsDone: map<string, bool>): (r: set<string>)
    ensures r <= ActiveGoals(goals)
  {
    set k | k in goals && goals[k] > 0 && GoalDone(goalsDone, k)
  }

  /** `isMissionComplete(goals, goalsDone, skipUsed)`. */
  predicate IsMissionComplete(goals: map<string, int>, goalsDone: map<string, bool>, skipUsed: bool) {
    if skipUsed then true
    else if |ActiveGoals(goals)| == 0 then false
    else |CompletedGoals(goals, goalsDone)| >= DailyGoalsTarget
  }

  /** A day is complete exactly when its skip was used or at least four of its
      positive-target goals are done; with no positive-target goal and no skip
      it is never complete. */
  lemma MissionCompleteSpec(goals: map<string, int>, goalsDone: map<string, bool>, skipUsed: bool)
    ensures IsMissionComplete(goals, goalsDone, skipUsed) <==>
      skipUsed || |CompletedGoals(goals, goalsDone)| >= 4
    ensures !skipUsed && !HasGoals(goals) ==> !IsMissionComplete(goals, goalsDone, skipUsed)
  {
    var active, done := ActiveGoals(goals), CompletedGoals(goals, goalsDone);
    if |active| == 0 {
      assert done == {};
    }
    if !HasGoals(goals) {
      assert active == {};
    }
  }

  predicate DayComplete(s: State, today: Day, day: Day) {
    var m := GoalsSnapshot(s, today, day);
    IsMissionComplete(m.goals, m.goalsDone, m.skipUsed)
  }

  /** Only archived days and today can be complete. */
  lemma CompleteDayIsKnown(s: State, today: Day, day: Day)
    requires DayComplete(s, today, day)
    ensures day in s.history || day == today
  {
  }

  // ---------------------------------------------------------------- streaks

  /** The days the backward walk from `cursor` can still find complete: a
      finite set that shrinks with every step. */
  function Candidates(s: State, today: Day, cursor: Day): set<Day> {
    set k | k in s.history.Keys + {today} && k <= cursor
  }

  /** The number of consecutive complete days ending at `cursor`. */
  function StreakFrom(s: State, today: Day, cursor: Day): nat
    decreases Candidates(s, today, cursor)
  {
    if DayComplete(s, today, cursor) then
      CompleteDayIsKnown(s, today, cursor);
      assert cursor in Candidates(s, today, cursor) - Candidates(s, today, cursor - 1);
      1 + StreakFrom(s, today, cursor - 1)
    else 0
  }

  /** `StreakFrom` counts exactly a run of complete days, and the day before
      the run is not complete. */
  lemma {:induction false} StreakFromSpec(s: State, today: Day, cursor: Day)
    ensures var n := StreakFrom(s, today, cursor);
      (forall d :: cursor - n < d <= cursor ==> DayComplete(s, today, d))
      && !DayComplete(s, today, cursor - n)
    decreases Candidates(s, today, cursor)
  {
    if DayComplete(s, today, cursor) {
      CompleteDayIsKnown(s, today, cursor);
      assert cursor in Candidates(s, today, cursor) - Candidates(s, today, cursor - 1);
      StreakFromSpec(s, today, cursor - 1);
    }
  }

  /** Where the walk starts: today if today is complete, else yesterday. */
  function StreakStart(s: State, today: Day): Day {
    if DayComplete(s, today, today) then today else today - 1
  }

  /** The value `getMissionStreak` computes. */
  function MissionStreak(s: State, today: Day): nat {
    StreakFrom(s, today, StreakStart(s, today))
  }

  /** `getMissionStreak(state)`: walks back one day at a time while the day is complete. */
  method GetMissionStreak(s: State, today: Day) returns (count: nat)
    ensures count == MissionStreak(s, today)
    ensures var start := StreakStart(s, today);
      (forall d :: start - count < d <= start ==> DayComplete(s, today, d))
      && !DayComplete(s, today, start - count)
  {
    var todayComplete := DayComplete(s, today, today);
    var cursor := today;
    if !todayComplete {
      cursor := cursor - 1;
    }
    count := 0;
    while true
      invariant count + StreakFrom(s, today, cursor) == MissionStreak(s, today)
      invariant cursor == StreakStart(s, today) - count
      decreases Candidates(s, today, cursor)
    {
      if !DayComplete(s, today, cursor) {
        break;
      }
      CompleteDayIsKnown(s, today, cursor);
      assert cursor in Candidates(s, today, cursor) - Candidates(s, today, cursor - 1);
      count := count + 1;
      cursor := cursor - 1;
    }
    StreakFromSpec(s, today, StreakStart(s, today));
  }

  // ----------------------------------------------------------------- totals

  /** `countDone(map)`: the number of truthy entries. */
  function CountDone(m: map<string, bool>): (r: nat)
    ensures r <= |m|
    ensures r == |m| <==> forall k :: k in m ==> m[k]
  {
    TruthySubset(m);
    |set k | k in m && m[k]|
  }

  lemma TruthySubset(m: map<string, bool>)
    ensures var done := set k | k in m && m[k];
      |done| <= |m| && (|done| == |m| <==> forall k :: k in m ==> m[k])
  {
    var done := set k | k in m && m[k];
    var rest := m.Keys - done;
    assert m.Keys == done + rest && done * rest == {};
    assert |m.Keys| == |done| + |rest|;
    if forall k :: k in m ==> m[k] {
      assert rest == {};
    } else {
      var k :| k in m && !m[k];
      assert k in rest;
    }
  }

  /** The archived days, in key order: entry `i` is the day with the `i`-th
      smallest key, so every archived day appears exactly once. */
  function HistoryDays(history: map<Day, DaySnapshot>): (r: seq<DaySnapshot>)
    ensures |r| == |history| == |SortedKeys(history.Keys)|
    ensures forall i :: 0 <= i < |r| ==>
      SortedKeys(history.Keys)[i] in history && r[i] == history[SortedKeys(history.Keys)[i]]
  {
    var keys := SortedKeys(history.Keys);
    SortedKeysOrdered(history.Keys);
    seq(|keys|, i requires 0 <= i < |keys| => history[keys[i]])
  }

  function SumGoalsDone(days: seq<DaySnapshot>): nat {
    if days == [] then 0 else CountDone(days[0].goalsDone) + SumGoalsDone(days[1..])
  }

  function SumActionsDone(days: seq<DaySnapshot>): nat {
    if days == [] then 0 else CountDone(days[0].actions) + SumActionsDone(days[1..])
  }

  /** `getTotalGoalsDone(state)`. */
  function TotalGoalsDone(s: State): nat {
    SumGoalsDone(HistoryDays(s.history))
  }

  /** `getTotalActionsDone(state)`. */
  function TotalActionsDone(s: State): nat {
    SumActionsDone(HistoryDays(s.history))
  }

  /** The totals only count archived days: an empty history counts nothing. */
  lemma TotalsOfEmptyHistory(s: State)
    requires s.history == map[]
    ensures TotalGoalsDone(s) == 0 && TotalActionsDone(s) == 0
  {
    assert HistoryDays(s.history) == [];
  }

  /** The earliest archived day comes first, followed by the others. */
  lemma HistoryDaysUnfold(history: map<Day, DaySnapshot>)
    requires |history| > 0
    ensures var m := MinOf(history.Keys);
      HistoryDays(history) == [history[m]] + HistoryDays(history - {m})
  {
    var m := MinOf(history.Keys);
    var rest := history - {m};
    assert rest.Keys == history.Keys - {m};
    assert SortedKeys(history.Keys) == [m] + SortedKeys(rest.Keys);
  }

  /** Both sums split into the earliest archived day and the rest. */
  lemma SumsUnfold(history: map<Day, DaySnapshot>)
    requires |history| > 0
    ensures var m := MinOf(history.Keys);
      && SumGoalsDone(HistoryDays(history))
         == CountDone(history[m].goalsDone) + SumGoalsDone(HistoryDays(history - {m}))
      && SumActionsDone(HistoryDays(history))
         == CountDone(history[m].actions) + SumActionsDone(HistoryDays(history - {m}))
  {
    var m := MinOf(history.Keys);
    HistoryDaysUnfold(history);
    var days := HistoryDays(history);
    assert days[0] == history[m] && days[1..] == HistoryDays(history - {m});
  }

  /** Taking out a key other than the least keeps the least. */
  lemma MinOfWithout(keys: set<int>, k: int)
    requires k in keys && k != MinOf(keys)
    ensures |keys - {k}| > 0 && MinOf(keys - {k}) == MinOf(keys)
  {
    var m := MinOf(keys);
    assert m in keys - {k};
  }

  /** The map facts one step of `SumsWithout` needs. */
  lemma DropTwo(history: map<Day, DaySnapshot>, m: Day, k: Day)
    requires m in history && k in history && m != k
    ensures (history - {m}).Keys == history.Keys - {m} && |history - {m}| < |history|
    ensures (history - {k}).Keys == history.Keys - {k} && k in history - {m}
    ensures (history - {k}) - {m} == (history - {m}) - {k}
  {
    assert (history - {m}).Keys == history.Keys - {m};
  }

  /** Any one archived day can be taken out of the goals sum, whatever its
      position in the day order. */
  lemma {:induction false} GoalsSumWithout(history: map<Day, DaySnapshot>, k: Day)
    requires k in history
    ensures SumGoalsDone(HistoryDays(history))
      == CountDone(history[k].goalsDone) + SumGoalsDone(HistoryDays(history - {k}))
    decreases |history|
  {
    var m := MinOf(history.Keys);
    SumsUnfold(history);
    if k != m {
      DropTwo(history, m, k);
      GoalsSumWithout(history - {m}, k);
      MinOfWithout(history.Keys, k);
      SumsUnfold(history - {k});
    }
  }

  /** The same for the actions sum. */
  lemma {:induction false} ActionsSumWithout(history: map<Day, DaySnapshot>, k: Day)
    requires k in history
    ensures SumActionsDone(HistoryDays(history))
      == CountDone(history[k].actions) + SumActionsDone(HistoryDays(history - {k}))
    decreases |history|
  {
    var m := MinOf(history.Keys);
    SumsUnfold(history);
    if k != m {
      DropTwo(history, m, k);
      ActionsSumWithout(history - {m}, k);
      MinOfWithout(history.Keys, k);
      SumsUnfold(history - {k});
    }
  }

  /** Archiving a new day adds exactly that day's counts to the totals, so
      the order in which days are read does not matter. */
  lemma TotalsAddDay(s: State, d: Day, snap: DaySnapshot)
    requires d !in s.history
    ensures TotalGoalsDone(s.(history := s.history[d := snap])) == TotalGoalsDone(s) + CountDone(snap.goalsDone)
    ensures TotalActionsDone(s.(history := s.history[d := snap])) == TotalActionsDone(s) + CountDone(snap.actions)
  {
    var h := s.history[d := snap];
    GoalsSumWithout(h, d);
    ActionsSumWithout(h, d);
    assert h - {d} == s.history;
  }

  // --------------------------------------------------------------- progress

  /** What `getAchievementProgress` returns. */
  datatype ProgressReport = ProgressReport(current: int, target: int, pct: int)

  /** The divisor `Math.max(1, target)`. */
  function SafeTarget(target: int): (t: int)
    ensures t >= 1 && t >= target
  {
    if target < 1 then 1 else target
  }

  /** `Math.min(100, Math.round(current / max(1, target) * 100))`, in integers. */
  function Percent(current: int, target: int): (pct: int)
    ensures pct <= 100
    ensures target >= 1 && current >= target ==> pct == 100
    ensures current >= 0 ==> pct >= 0
  {
    var t := SafeTarget(target);
    var n := 200 * current + t;
    DivAtLeast(n, 2 * t, if target >= 1 && current >= target then 100 else 0);
    Min(100, n / (2 * t))
  }

  /** `n div d` is at least `q` when `n` is at least `q * d`; with q = 0 it
      also bounds a non-negative numerator. */
  lemma DivAtLeast(n: int, d: int, q: int)
    requires d > 0
    ensures n >= q * d ==> n / d >= q
  {
    if n >= q * d {
      var r := n / d;
      assert n < r * d + d;
      assert (q - r - 1) * d < 0;
    }
  }

  /** The integer form of `Percent` is the rounded real quotient. */
  lemma PercentIsRounded(current: int, target: int)
    ensures var t := SafeTarget(target);
      Percent(current, target) == Min(100, Round((current as real) / (t as real) * 100.0))
  {
    var t := SafeTarget(target);
    var c, tr := current as real, t as real;
    var n := 200 * current + t;
    var x := c / tr;
    assert x * tr == c;
    assert (n as real) == 200.0 * x * tr + tr;
    var y := 100.0 * x + 0.5;
    assert y * (2.0 * tr) == (n as real);
    assert (n as real) / (2.0 * tr) == y;
    FloorOfQuotient(n, 2 * t);
  }

  function Min(a: int, b: int): int {
    if a <= b then a else b
  }

  /** `getAchievementProgress(achievement, state)`. */
  function AchievementProgress(rule: Rule, s: State, today: Day): (r: ProgressReport)
    ensures r.target == rule.target && r.pct <= 100
    ensures rule.kind == LevelRule ==> r.current == s.progress.level
    ensures rule.kind == StreakRule ==> r.current == MissionStreak(s, today)
    ensures rule.kind == GoalsRule ==> r.current == TotalGoalsDone(s)
    ensures rule.kind == ActionsRule ==> r.current == TotalActionsDone(s)
    ensures rule.kind == OtherRule ==> r.current == 0
  {
    var current := match rule.kind
      case LevelRule => s.progress.level
      case StreakRule => MissionStreak(s, today)
      case GoalsRule => TotalGoalsDone(s)
      case ActionsRule => TotalActionsDone(s)
      case OtherRule => 0;
    ProgressReport(current, rule.target, Percent(current, rule.target))
  }

  /** A rule whose progress has reached its target. */
  predicate Met(rule: Rule, s: State, today: Day) {
    AchievementProgress(rule, s, today).current >= rule.target
  }

  // --------------------------------------------------------------- granting

  /** One entry of the `earned` list of `grantAchievementRewards`. */
  datatype Earned = Earned(id: string, title: string, xp: int)

  /** What `grantAchievementRewards` returns. */
  datatype Grant = Grant(achievements: seq<Achievement>, earned: seq<Earned>, xp: int)

  function Ids(achs: seq<Achievement>): set<string> {
    set i | 0 <= i < |achs| :: achs[i].id
  }

  function RuleIds(rules: seq<Rule>): set<string> {
    set i | 0 <= i < |rules| :: rules[i].id
  }

  lemma RuleIdsSnoc(rules: seq<Rule>, rule: Rule)
    ensures RuleIds(rules + [rule]) == RuleIds(rules) + {rule.id}
  {
    var all := rules + [rule];
    forall id | id in RuleIds(all) ensures id in RuleIds(rules) + {rule.id} {
      var i :| 0 <= i < |all| && all[i].id == id;
      if i < |rules| {
        assert rules[i].id == id;
      }
    }
    forall id | id in RuleIds(rules) + {rule.id} ensures id in RuleIds(all) {
      if id == rule.id {
        assert all[|rules|].id == id;
      } else {
        var i :| 0 <= i < |rules| && rules[i].id == id;
        assert all[i].id == id;
      }
    }
  }

  /** The rules a sweep over `rules` grants, in table order, when `have` holds
      the ids already earned. */
  function Granted(rules: seq<Rule>, s: State, today: Day, have: set<string>): seq<Rule>
    decreases |rules|
  {
    if rules == [] then []
    else
      var before := Granted(rules[..|rules| - 1], s, today, have);
      var rule := rules[|rules| - 1];
      if Met(rule, s, today) && rule.id !in have + RuleIds(before) then before + [rule] else before
  }

  /** The records appended for the granted rules. */
  function Stamp(rules: seq<Rule>, earnedAt: string): (r: seq<Achievement>)
    ensures |r| == |rules|
    ensures forall i :: 0 <= i < |r| ==> r[i] == Achievement(rules[i].id, rules[i].title, earnedAt)
  {
    seq(|rules|, i requires 0 <= i < |rules| => Achievement(rules[i].id, rules[i].title, earnedAt))
  }

  function EarnedOf(rules: seq<Rule>): (r: seq<Earned>)
    ensures |r| == |rules|
    ensures forall i :: 0 <= i < |r| ==> r[i] == Earned(rules[i].id, rules[i].title, RewardXp(rules[i].kind, rules[i].target))
  {
    seq(|rules|, i requires 0 <= i < |rules| => Earned(rules[i].id, rules[i].title, RewardXp(rules[i].kind, rules[i].target)))
  }

  function SumXp(earned: seq<Earned>): int {
    if earned == [] then 0 else SumXp(earned[..|earned| - 1]) + earned[|earned| - 1].xp
  }

  /** Every granted rule is met, comes from the table, was not earned before,
      and no id is granted twice; every met rule of the table ends up earned. */
  lemma {:induction false} GrantedSpec(rules: seq<Rule>, s: State, today: Day, have: set<string>)
    ensures var g := Granted(rules, s, today, have);
      && |g| <= |rules|
      && (forall i :: 0 <= i < |g| ==> g[i] in rules && Met(g[i], s, today) && g[i].id !in have)
      && (forall i, j :: 0 <= i < j < |g| ==> g[i].id != g[j].id)
      && (forall r :: r in rules && Met(r, s, today) ==> r.id in have + RuleIds(g))
    decreases |rules|
  {
    if rules != [] {
      var prefix := rules[..|rules| - 1];
      GrantedSpec(prefix, s, today, have);
      var before := Granted(prefix, s, today, have);
      var rule := rules[|rules| - 1];
      assert forall r :: r in rules ==> r in prefix || r == rule;
      if Met(rule, s, today) && rule.id !in have + RuleIds(before) {
        RuleIdsSnoc(before, rule);
        assert forall i :: 0 <= i < |before| ==> before[i].id in RuleIds(before);
      }
    }
  }

  /** A sweep in which every met rule is already earned grants nothing. */
  lemma {:induction false} GrantedNothing(rules: seq<Rule>, s: State, today: Day, have: set<string>)
    requires forall r :: r in rules && Met(r, s, today) ==> r.id in have
    ensures Granted(rules, s, today, have) == []
    decreases |rules|
  {
    if rules != [] {
      var prefix := rules[..|rules| - 1];
      assert forall r :: r in prefix ==> r in rules;
      GrantedNothing(prefix, s, today, have);
    }
  }

  lemma IdsAppend(current: seq<Achievement>, rules: seq<Rule>, earnedAt: string)
    ensures Ids(current + Stamp(rules, earnedAt)) == Ids(current) + RuleIds(rules)
  {
    var all := current + Stamp(rules, earnedAt);
    forall id | id in Ids(current) + RuleIds(rules) ensures id in Ids(all) {
      if id in Ids(current) {
        var i :| 0 <= i < |current| && current[i].id == id;
        assert all[i].id == id;
      } else {
        var i :| 0 <= i < |rules| && rules[i].id == id;
        assert all[|current| + i].id == id;
      }
    }
  }

  /** `grantAchievements(state, achievements)`: appends a record for every met
      rule whose id is not yet earned, in table order. */
  method GrantAchievements(rules: seq<Rule>, s: State, today: Day, current: seq<Achievement>, earnedAt: string)
    returns (next: seq<Achievement>)
    ensures next == current + Stamp(Granted(rules, s, today, Ids(current)), earnedAt)
    ensures next[..|current|] == current
  {
    var have := Ids(current);
    next := current;
    for i := 0 to |rules|
      invariant next == current + Stamp(Granted(rules[..i], s, today, Ids(current)), earnedAt)
      invariant have == Ids(current) + RuleIds(Granted(rules[..i], s, today, Ids(current)))
    {
      var rule := rules[i];
      ghost var before, after := Granted(rules[..i], s, today, Ids(current)), Granted(rules[..i + 1], s, today, Ids(current));
      GrantedSnoc(rules, i, s, today, Ids(current));
      ghost var grant := Met(rule, s, today) && rule.id !in have;
      SweepStep(before, after, rule, grant, Ids(current), current, earnedAt, next, have);
      var progress := AchievementProgress(rule, s, today);
      if progress.current >= progress.target && rule.id !in have {
        next := next + [Achievement(rule.id, rule.title, earnedAt)];
        have := have + {rule.id};
      }
    }
    WholePrefix(rules);
  }

  /** `grantAchievementRewards(state, achievements)`: the same sweep, also
      listing what was earned and the total reward XP. */
  method GrantAchievementRewards(rules: seq<Rule>, s: State, today: Day, current: seq<Achievement>, earnedAt: string)
    returns (r: Grant)
    ensures var g := Granted(rules, s, today, Ids(current));
      r == Grant(current + Stamp(g, earnedAt), EarnedOf(g), SumXp(EarnedOf(g)))
  {
    var have := Ids(current);
    var next := current;
    var earned: seq<Earned> := [];
    var xp := 0;
    for i := 0 to |rules|
      invariant next == current + Stamp(Granted(rules[..i], s, today, Ids(current)), earnedAt)
      invariant earned == EarnedOf(Granted(rules[..i], s, today, Ids(current)))
      invariant xp == SumXp(earned)
      invariant have == Ids(current) + RuleIds(Granted(rules[..i], s, today, Ids(current)))
    {
      var rule := rules[i];
      ghost var before, after := Granted(rules[..i], s, today, Ids(current)), Granted(rules[..i + 1], s, today, Ids(current));
      GrantedSnoc(rules, i, s, today, Ids(current));
      ghost var grant := Met(rule, s, today) && rule.id !in have;
      SweepStep(before, after, rule, grant, Ids(current), current, earnedAt, next, have);
      SweepEarnedStep(before, after, rule, grant, earned, xp);
      var progress := AchievementProgress(rule, s, today);
      if progress.current >= progress.target && rule.id !in have {
        var rewardXp := RewardXp(rule.kind, rule.target);
        next := next + [Achievement(rule.id, rule.title, earnedAt)];
        have := have + {rule.id};
        earned := earned + [Earned(rule.id, rule.title, rewardXp)];
        xp := xp + rewardXp;
      }
    }
    WholePrefix(rules);
    r := Grant(next, earned, xp);
  }

  lemma WholePrefix(rules: seq<Rule>)
    ensures rules[..|rules|] == rules
  {
  }

  /** One step of the sweep, over any rule table. */
  lemma GrantedSnoc(rules: seq<Rule>, i: nat, s: State, today: Day, have: set<string>)
    requires i < |rules|
    ensures var before := Granted(rules[..i], s, today, have);
      Granted(rules[..i + 1], s, today, have) ==
        if Met(rules[i], s, today) && rules[i].id !in have + RuleIds(before) then before + [rules[i]] else before
  {
    assert rules[..i + 1][..i] == rules[..i];
  }

  /** What one more granted rule adds to each output of the sweep. */
  lemma GrantStep(before: seq<Rule>, rule: Rule, earnedAt: string)
    ensures Stamp(before + [rule], earnedAt) == Stamp(before, earnedAt) + [Achievement(rule.id, rule.title, earnedAt)]
    ensures var e := Earned(rule.id, rule.title, RewardXp(rule.kind, rule.target));
      EarnedOf(before + [rule]) == EarnedOf(before) + [e]
      && SumXp(EarnedOf(before) + [e]) == SumXp(EarnedOf(before)) + e.xp
    ensures RuleIds(before + [rule]) == RuleIds(before) + {rule.id}
  {
    var e := Earned(rule.id, rule.title, RewardXp(rule.kind, rule.target));
    assert (EarnedOf(before) + [e])[..|before|] == EarnedOf(before);
    RuleIdsSnoc(before, rule);
  }

  /** The sweep's record list and id set after one more rule, from their
      values before it; `grant` says whether the rule was granted. */
  lemma SweepStep(before: seq<Rule>, after: seq<Rule>, rule: Rule, grant: bool, base: set<string>,
                  current: seq<Achievement>, earnedAt: string, next: seq<Achievement>, have: set<string>)
    requires after == if grant then before + [rule] else before
    requires next == current + Stamp(before, earnedAt)
    requires have == base + RuleIds(before)
    ensures grant ==>
      next + [Achievement(rule.id, rule.title, earnedAt)] == current + Stamp(after, earnedAt)
      && have + {rule.id} == base + RuleIds(after)
    ensures !grant ==> next == current + Stamp(after, earnedAt) && have == base + RuleIds(after)
  {
    if grant {
      var a := Achievement(rule.id, rule.title, earnedAt);
      GrantStep(before, rule, earnedAt);
      assert current + (Stamp(before, earnedAt) + [a]) == next + [a];
    }
  }

  /** The sweep's earned list and XP total after one more rule. */
  lemma SweepEarnedStep(before: seq<Rule>, after: seq<Rule>, rule: Rule, grant: bool,
                        earned: seq<Earned>, xp: int)
    requires after == if grant then before + [rule] else before
    requires earned == EarnedOf(before)
    requires xp == SumXp(earned)
    ensures var reward := RewardXp(rule.kind, rule.target);
      grant ==> (earned + [Earned(rule.id, rule.title, reward)] == EarnedOf(after)
                 && xp + reward == SumXp(EarnedOf(after)))
    ensures !grant ==> earned == EarnedOf(after) && xp == SumXp(EarnedOf(after))
  {
    if grant {
      GrantStep(before, rule, "");
    }
  }

  /** Granting is idempotent: a second sweep over the same state, starting
      from the first sweep's output, appends nothing and earns no XP. */
  lemma GrantIdempotent(rules: seq<Rule>, s: State, today: Day, current: seq<Achievement>, earnedAt: string, earnedAt2: string)
    ensures var once := current + Stamp(Granted(rules, s, today, Ids(current)), earnedAt);
      Granted(rules, s, today, Ids(once)) == []
      && once + Stamp(Granted(rules, s, today, Ids(once)), earnedAt2) == once
      && SumXp(EarnedOf(Granted(rules, s, today, Ids(once)))) == 0
  {
    var g := Granted(rules, s, today, Ids(current));
    GrantedSpec(rules, s, today, Ids(current));
    IdsAppend(current, g, earnedAt);
    var once := current + Stamp(g, earnedAt);
    GrantedNothing(rules, s, today, Ids(once));
    assert once + Stamp([], earnedAt2) == once;
  }

  /** The earned XP is the sum of the reward tiers of the granted rules, and at
      least 100 per granted rule. */
  lemma {:induction false} SumXpOfEarned(g: seq<Rule>)
    ensures SumXp(EarnedOf(g)) >= 100 * |g|
    ensures g == [] ==> SumXp(EarnedOf(g)) == 0
    decreases |g|
  {
    if g != [] {
      var prefix := g[..|g| - 1];
      SumXpOfEarned(prefix);
      assert EarnedOf(g)[..|g| - 1] == EarnedOf(prefix);
    }
  }
}
