/** The persisted state object the engine works on. Dates are calendar day
    numbers (the source's `YYYY-MM-DD` keys order the same way); an empty date
    string is `None`. */
module Model {
  import opened Base
  import opened Leveling

  /** A calendar day number. */
  type Day = int

  /** `life`: the current amount, and the last days a penalty and a defeat were recorded. */
  datatype Life = Life(current: int, lastPenaltyDate: Option<Day>, lastDefeatDate: Option<Day>)

  /** `daily`: today's working set. The values `ensureDaily` type-checks
      (action flags and `skipUsed`) are raw JSON values; the other flag maps
      keep only their truthiness, which is all the engine ever reads of them. */
  datatype Daily = Daily(
    date: Option<Day>,
    actions: map<string, JVal>,
    bonusCategories: map<string, bool>,
    goalsDone: map<string, bool>,
    skipUsed: JVal)

  /** One archived day of `history.days`. Action flags are kept as truthiness. */
  datatype DaySnapshot = DaySnapshot(
    goals: map<string, int>,
    goalsDone: map<string, bool>,
    actions: map<string, bool>,
    skipUsed: bool)

  datatype Achievement = Achievement(id: string, title: string, earnedAt: string)

  datatype TrainingItem = TrainingItem(id: string, name: string, reps: string, done: int)

  datatype User = User(name: string)

  datatype State = State(
    user: User,
    progress: Progress,
    life: Life,
    tokens: int,
    daily: Daily,
    history: map<Day, DaySnapshot>,
    goals: map<string, int>,
    training: map<string, seq<TrainingItem>>,
    achievements: seq<Achievement>)

  /** `!!goalsDone[key]`. */
  predicate GoalDone(goalsDone: map<string, bool>, key: string) {
    key in goalsDone && goalsDone[key]
  }

  /** `Number(goals[key] ?? 0)`. */
  function GoalTarget(goals: map<string, int>, key: string): int {
    if key in goals then goals[key] else 0
  }

  /** At least one goal has a positive target. */
  predicate HasGoals(goals: map<string, int>) {
    exists k :: k in goals && goals[k] > 0
  }
}
