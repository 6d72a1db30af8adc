/** Life clamping, write-once history archiving, the single-day rollover
    penalty and the multi-day catch-up loop of the store
    (src/state/store.js:15-200). The clock is the `today` parameter. */
module Penalties {
  import opened Base
  import opened Leveling
  import opened Model
  import opened Achievements

  const BaseLifePenalty := 10

  // ------------------------------------------------------------------- life

  /** `getLifePenalty(level) = round(10 + max(1, level) * 1.5)`, in integers. */
  function LifePenalty(level: int): (r: int)
    ensures r >= 12
  {
    var safe := if level < 1 then 1 else level;
    (2 * BaseLifePenalty + 1 + 3 * safe) / 2
  }

  lemma LifePenaltyIsRounded(level: int)
    ensures var safe := if level < 1 then 1 else level;
      LifePenalty(level) == Round(10.0 + (safe as real) * 1.5)
  {
    var safe := if level < 1 then 1 else level;
    var n := 21 + 3 * safe;
    assert 10.0 + (safe as real) * 1.5 + 0.5 == (n as real) / 2.0;
    FloorOfQuotient(n, 2);
  }

  /** A higher level never costs less life. */
  lemma LifePenaltyMonotone(a: int, b: int)
    requires a <= b
    ensures LifePenalty(a) <= LifePenalty(b)
    ensures a <= 1 ==> LifePenalty(a) == 12
  {
  }

  /** The store's life invariant: between zero and the maximum for the level. */
  predicate LifeBounded(s: State) {
    0 <= s.life.current <= LifeForLevel(s.progress.level)
  }

  function Max0(x: int): int {
    if x < 0 then 0 else x
  }

  /** `ensureLifeState(state)`: clamps `life.current` into `[0, lifeForLevel(level)]`. */
  function EnsureLifeState(s: State): (r: State)
    ensures LifeBounded(r)
    ensures r == s.(life := s.life.(current := r.life.current))
    ensures s.life.current <= 0 ==> r.life.current == 0
    ensures LifeBounded(s) ==> r == s
    ensures s.life.current > LifeForLevel(s.progress.level) ==> r.life.current == LifeForLevel(s.progress.level)
  {
    var maxLife := LifeForLevel(s.progress.level);
    LifeForLevelBounds(s.progress.level, s.progress.level);
    var current := s.life.current;
    if current <= 0 then s.(life := s.life.(current := 0))
    else s.(life := s.life.(current := Max0(Min(maxLife, current))))
  }

  lemma EnsureLifeStateIdempotent(s: State)
    ensures EnsureLifeState(EnsureLifeState(s)) == EnsureLifeState(s)
  {
  }

  /** `isDefeated(state)`: no life left. */
  predicate IsDefeated(s: State) {
    s.life.current <= 0
  }

  // ---------------------------------------------------------------- history

  /** What the source archives for a day, taken from the live state. */
  function LiveSnapshot(s: State): DaySnapshot {
    DaySnapshot(s.goals, s.daily.goalsDone, TruthMap(s.daily.actions), Truthy(s.daily.skipUsed))
  }

  /** The snapshot the catch-up loop uses for a day nobody recorded. */
  function AbsentSnapshot(s: State): DaySnapshot {
    DaySnapshot(s.goals, map[], map[], false)
  }

  /** `updateHistoryForDate(state, dateKey, snapshot)`: archives the snapshot
      under the day only if that day has no entry yet. */
  function UpdateHistoryForDate(history: map<Day, DaySnapshot>, dateKey: Option<Day>, snapshot: DaySnapshot)
    : map<Day, DaySnapshot>
  {
    if dateKey.None? then history
    else if dateKey.value !in history then history[dateKey.value := snapshot]
    else history
  }

  /** Archiving adds at most the given day, never overwrites an archived day,
      and stores the snapshot only under a day that had no entry. */
  lemma UpdateHistorySpec(history: map<Day, DaySnapshot>, dateKey: Option<Day>, snapshot: DaySnapshot)
    ensures var r := UpdateHistoryForDate(history, dateKey, snapshot);
      && (dateKey.None? ==> r == history)
      && (dateKey.Some? ==> r.Keys == history.Keys + {dateKey.value})
      && (forall k :: k in history ==> k in r && r[k] == history[k])
      && (dateKey.Some? && dateKey.value !in history ==> r[dateKey.value] == snapshot)
  {
  }

  /** Archiving is write-once: a second archive of the same day changes nothing. */
  lemma UpdateHistoryWriteOnce(history: map<Day, DaySnapshot>, day: Day, first: DaySnapshot, second: DaySnapshot)
    ensures var h := UpdateHistoryForDate(history, Some(day), first);
      UpdateHistoryForDate(h, Some(day), second) == h
  {
  }

  // ---------------------------------------------------------------- penalty

  /** A day with at least one positive-target goal whose mission is incomplete. */
  predicate Failed(snap: DaySnapshot) {
    HasGoals(snap.goals) && !IsMissionComplete(snap.goals, snap.goalsDone, snap.skipUsed)
  }

  /** A day fails exactly when it has an active goal, no skip, and fewer than
      four completed goals; a day nobody recorded fails whenever a goal is set. */
  lemma FailedSpec(snap: DaySnapshot, s: State)
    ensures Failed(snap) <==>
      HasGoals(snap.goals) && !snap.skipUsed && |CompletedGoals(snap.goals, snap.goalsDone)| < 4
    ensures Failed(AbsentSnapshot(s)) <==> HasGoals(s.goals)
  {
    MissionCompleteSpec(snap.goals, snap.goalsDone, snap.skipUsed);
    var a := AbsentSnapshot(s);
    MissionCompleteSpec(a.goals, a.goalsDone, a.skipUsed);
    assert CompletedGoals(a.goals, a.goalsDone) == {};
  }

  /** The life update for one processed day `key`: a failed day costs
      `LifePenalty(level)`, floored at zero, and reaching zero records a
      defeat; every processed day becomes `lastPenaltyDate`. */
  function PenaltyStep(life: Life, level: int, key: Day, failed: bool): (r: Life)
    ensures r.lastPenaltyDate == Some(key)
    ensures !failed ==> r.current == life.current && r.lastDefeatDate == life.lastDefeatDate
    ensures failed ==> r.current == Max0(life.current - LifePenalty(level))
    ensures failed && life.current - LifePenalty(level) <= 0 ==> r.lastDefeatDate == Some(key)
    ensures failed && life.current - LifePenalty(level) > 0 ==> r.lastDefeatDate == life.lastDefeatDate
    ensures 0 <= life.current ==> 0 <= r.current <= life.current
  {
    if failed then
      var remaining := life.current - LifePenalty(level);
      if remaining <= 0 then Life(0, Some(key), Some(key))
      else life.(current := remaining, lastPenaltyDate := Some(key))
    else life.(lastPenaltyDate := Some(key))
  }

  /** `applyDailyRolloverPenalty(state)`: when the daily record is from an
      earlier day not yet penalised, archives it and charges it once. */
  function RolloverPenalty(s: State, today: Day): State {
    var dailyDate := s.daily.date;
    if dailyDate.None? || dailyDate.value >= today then s
    else if s.life.lastPenaltyDate == dailyDate then s
    else
      var next := EnsureLifeState(s);
      var snap := LiveSnapshot(next);
      var next2 := next.(history := UpdateHistoryForDate(next.history, dailyDate, snap));
      next2.(life := PenaltyStep(next2.life, next2.progress.level, dailyDate.value, Failed(snap)))
  }

  /** The rollover charges a stale record exactly once: it stamps the record's
      day as `lastPenaltyDate`, archives it write-once, and a second rollover
      changes nothing. A current record, or one already charged, is left alone. */
  lemma RolloverSpec(s: State, today: Day)
    ensures var r := RolloverPenalty(s, today);
      var d := s.daily.date;
      && (d.None? || d.value >= today || s.life.lastPenaltyDate == d ==> r == s)
      && (d.Some? && d.value < today && s.life.lastPenaltyDate != d ==>
            r.life.lastPenaltyDate == d
            && r.history == UpdateHistoryForDate(s.history, d, LiveSnapshot(s))
            && LifeBounded(r)
            && r == s.(history := r.history, life := r.life)
            && (Failed(LiveSnapshot(s)) ==>
                  r.life.current == Max0(EnsureLifeState(s).life.current - LifePenalty(s.progress.level)))
            && (!Failed(LiveSnapshot(s)) ==> r.life.current == EnsureLifeState(s).life.current))
      && RolloverPenalty(r, today) == r
  {
  }

  // --------------------------------------------------------------- catch-up

  /** `historyKeys.sort().slice(-1)[0]`: the latest archived day. */
  function LatestHistoryKey(history: map<Day, DaySnapshot>): (r: Day)
    requires |history| > 0
    ensures r in history && forall k :: k in history ==> k <= r
  {
    var keys := SortedKeys(history.Keys);
    SortedKeysOrdered(history.Keys);
    SortedKeysComplete(history.Keys);
    assert forall k :: k in history ==> exists i :: 0 <= i < |keys| && keys[i] == k;
    keys[|keys| - 1]
  }

  /** Where the catch-up loop starts counting from: the last penalised day,
      else a record from another day, else the latest archived day. */
  function Seed(s: State, today: Day): Option<Day> {
    if s.life.lastPenaltyDate.Some? then s.life.lastPenaltyDate
    else if s.daily.date.Some? && s.daily.date != Some(today) then s.daily.date
    else if |s.history| > 0 then Some(LatestHistoryKey(s.history))
    else None
  }

  /** The first day the loop processes: the day after the last penalised day,
      otherwise the seed day itself. */
  function FirstDay(s: State, seed: Day): Day {
    if s.life.lastPenaltyDate.Some? then seed + 1 else seed
  }

  /** One iteration of the catch-up loop, for day `key`. */
  function DayStep(next: State, key: Day, dailyDate: Option<Day>): State {
    if Some(key) == dailyDate then
      var snap := LiveSnapshot(next);
      var n1 := next.(history := UpdateHistoryForDate(next.history, Some(key), snap));
      n1.(life := PenaltyStep(n1.life, n1.progress.level, key, Failed(snap)))
    else
      var snap := if key in next.history then next.history[key] else AbsentSnapshot(next);
      next.(life := PenaltyStep(next.life, next.progress.level, key, Failed(snap)))
  }

  /** The loop from `cursor` up to (not including) `today`. */
  function CatchUpFrom(next: State, cursor: Day, today: Day, dailyDate: Option<Day>): State
    decreases if cursor < today then today - cursor else 0
  {
    if cursor < today then CatchUpFrom(DayStep(next, cursor, dailyDate), cursor + 1, today, dailyDate)
    else next
  }

  /** The state `applyDailyFailurePenalty(state)` returns. */
  function FailurePenalty(s: State, today: Day): State {
    var seed := Seed(s, today);
    if seed.None? then s
    else CatchUpFrom(EnsureLifeState(s), FirstDay(s, seed.value), today, s.daily.date)
  }

  /** `applyDailyFailurePenalty(state)`: walks day by day from the seed up to
      yesterday, charging every failed day. */
  method ApplyDailyFailurePenalty(s: State, today: Day) returns (next: State)
    ensures next == FailurePenalty(s, today)
  {
    var lastPenaltyDate := s.life.lastPenaltyDate;
    var dailyDate := s.daily.date;
    var seed := Seed(s, today);
    if seed.None? {
      return s;
    }
    next := EnsureLifeState(s);
    var cursor := seed.value;
    if lastPenaltyDate.Some? {
      cursor := cursor + 1;
    }
    FailurePenaltyStart(s, today);
    next := CatchUp(next, cursor, today, dailyDate);
  }

  /** The catch-up loop itself: every day from `cursor` up to yesterday. */
  method CatchUp(start: State, cursor: Day, today: Day, dailyDate: Option<Day>) returns (next: State)
    ensures next == CatchUpFrom(start, cursor, today, dailyDate)
  {
    next := start;
    var key := cursor;
    while key < today
      invariant CatchUpFrom(next, key, today, dailyDate) == CatchUpFrom(start, cursor, today, dailyDate)
      decreases today - key
    {
      var after := ProcessDay(next, key, dailyDate);
      CatchUpStepped(next, after, key, today, dailyDate);
      next := after;
      key := key + 1;
    }
  }

  /** The body of the catch-up loop for day `key`: archive the live record if
      it is that day's, pick the day's snapshot, and charge it if it failed.
      The loop body reassigns `snapshot` and `next` statement by statement, so
      it is kept as a method; `DayStep` is the value it is proved to compute. */
  method ProcessDay(next: State, key: Day, dailyDate: Option<Day>) returns (after: State)
    ensures after == DayStep(next, key, dailyDate)
  {
    var snapshot: DaySnapshot;
    after := next;
    if Some(key) == dailyDate {
      snapshot := LiveSnapshot(after);
      after := after.(history := UpdateHistoryForDate(after.history, Some(key), snapshot));
    } else if key in after.history {
      snapshot := after.history[key];
    } else {
      snapshot := AbsentSnapshot(after);
    }
    var failed := Failed(snapshot);
    after := after.(life := PenaltyStep(after.life, after.progress.level, key, failed));
  }

  lemma FailurePenaltyStart(s: State, today: Day)
    ensures Seed(s, today).Some? ==>
      FailurePenalty(s, today) ==
        CatchUpFrom(EnsureLifeState(s), FirstDay(s, Seed(s, today).value), today, s.daily.date)
  {
  }

  lemma CatchUpStepped(before: State, next: State, cursor: Day, today: Day, dailyDate: Option<Day>)
    requires cursor < today && next == DayStep(before, cursor, dailyDate)
    ensures CatchUpFrom(next, cursor + 1, today, dailyDate) == CatchUpFrom(before, cursor, today, dailyDate)
  {
  }

  /** The loop touches only life and history, keeps life bounded, never adds
      life, and stamps the last processed day (yesterday) as `lastPenaltyDate`. */
  lemma {:induction false} CatchUpSpec(next: State, cursor: Day, today: Day, dailyDate: Option<Day>)
    requires LifeBounded(next)
    ensures var r := CatchUpFrom(next, cursor, today, dailyDate);
      && LifeBounded(r)
      && r.life.current <= next.life.current
      && r == next.(life := r.life, history := r.history)
      && next.history.Keys <= r.history.Keys
      && (forall k :: k in next.history ==> r.history[k] == next.history[k])
      && (cursor < today ==> r.life.lastPenaltyDate == Some(today - 1))
      && (cursor >= today ==> r == next)
    decreases if cursor < today then today - cursor else 0
  {
    if cursor < today {
      var n1 := DayStep(next, cursor, dailyDate);
      CatchUpSpec(n1, cursor + 1, today, dailyDate);
    }
  }

  /** Days the loop sees as absent: neither the live record's day nor archived. */
  predicate AbsentDays(next: State, cursor: Day, today: Day, dailyDate: Option<Day>) {
    forall d :: cursor <= d < today ==> Some(d) != dailyDate && d !in next.history
  }

  lemma MaxSteps(c: int, p: int, n: nat)
    requires p > 0
    ensures Max0(Max0(c - p) - n * p) == Max0(c - (n + 1) * p)
  {
    if c - p <= 0 {
      assert n * p >= 0;
    }
  }

  /** `n` absent days at a constant level, with a goal set, cost exactly `n`
      penalties, floored at zero; the history is not touched. */
  lemma {:induction false} AbsentDaysPenalty(next: State, cursor: Day, today: Day, dailyDate: Option<Day>)
    requires cursor <= today && 0 <= next.life.current
    requires HasGoals(next.goals) && AbsentDays(next, cursor, today, dailyDate)
    ensures var r := CatchUpFrom(next, cursor, today, dailyDate);
      && r.life.current == Max0(next.life.current - (today - cursor) * LifePenalty(next.progress.level))
      && r.history == next.history
    decreases today - cursor
  {
    if cursor < today {
      FailedSpec(AbsentSnapshot(next), next);
      var n1 := DayStep(next, cursor, dailyDate);
      assert n1.life.current == Max0(next.life.current - LifePenalty(next.progress.level));
      assert n1 == next.(life := n1.life);
      AbsentDaysPenalty(n1, cursor + 1, today, dailyDate);
      var n := today - cursor - 1;
      MaxSteps(next.life.current, LifePenalty(next.progress.level), n);
      assert n + 1 == today - cursor;
    } else {
      assert next.life.current - 0 * LifePenalty(next.progress.level) == next.life.current;
    }
  }

  /** A second catch-up on the same day changes nothing. */
  lemma FailurePenaltyIdempotent(s: State, today: Day)
    ensures FailurePenalty(FailurePenalty(s, today), today) == FailurePenalty(s, today)
  {
    var seed := Seed(s, today);
    if seed.Some? {
      var start := EnsureLifeState(s);
      var first := FirstDay(s, seed.value);
      CatchUpSpec(start, first, today, s.daily.date);
      var r := FailurePenalty(s, today);
      if first < today {
        assert Seed(r, today) == Some(today - 1);
        assert CatchUpFrom(EnsureLifeState(r), today, today, r.daily.date) == r;
      } else {
        assert r == start;
        assert Seed(r, today) == seed;
        EnsureLifeStateIdempotent(s);
      }
    }
  }
}
