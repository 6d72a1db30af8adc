/** The numbers behind the stats screen (src/ui/statsView.js): the days it
    counts, how often a goal was done, on how many days each action
    category was practised, and how a score turns into a level with a
    progress bar. The rendering itself is not modelled. */
module Stats {
  import opened Base
  import opened Leveling
  import opened Model
  import opened ActionsCatalog
  import opened Achievements
  import opened Penalties

  const PointsPerLevel := 10

  /** `getDays(state)`: every archived day once, in key order, plus the live
      record when today has not been archived yet. */
  function GetDays(s: State, today: Day): (r: seq<DaySnapshot>)
    ensures |r| == if today in s.history then |s.history| else |s.history| + 1
    ensures |SortedKeys(s.history.Keys)| == |s.history|
    ensures forall i :: 0 <= i < |s.history| ==>
      SortedKeys(s.history.Keys)[i] in s.history && r[i] == s.history[SortedKeys(s.history.Keys)[i]]
    ensures today !in s.history ==> r[|r| - 1] == LiveSnapshot(s)
  {
    var days := HistoryDays(s.history);
    if today in s.history then days else days + [LiveSnapshot(s)]
  }

  /** `countGoalDone(days, key)`: the days on which the goal is flagged done. */
  function CountGoalDone(days: seq<DaySnapshot>, key: string): (r: nat)
    ensures r <= |days|
    ensures r == 0 <==> forall i :: 0 <= i < |days| ==> !GoalDone(days[i].goalsDone, key)
    ensures r == |days| <==> forall i :: 0 <= i < |days| ==> GoalDone(days[i].goalsDone, key)
    decreases |days|
  {
    if days == [] then 0
    else
      var rest := CountGoalDone(days[1..], key);
      assert forall i :: 1 <= i < |days| ==> days[i] == days[1..][i - 1];
      (if GoalDone(days[0].goalsDone, key) then 1 else 0) + rest
  }

  /** The categories of the keys `keys` of one day's action flags: those of
      the catalog actions flagged true. A false flag or a key the catalog
      does not know adds nothing. The screen reads the catalog `Actions`. */
  function CategoriesOfKeys(catalog: seq<CatalogAction>, actions: map<string, bool>, keys: set<string>)
    : set<Category>
  {
    set k | k in keys && k in actions && actions[k] && FindByKey(catalog, k).Some? :: FindByKey(catalog, k).value.category
  }

  function DayCategories(catalog: seq<CatalogAction>, actions: map<string, bool>): set<Category> {
    CategoriesOfKeys(catalog, actions, actions.Keys)
  }

  /** The number of days whose categories include `c`. */
  function CategoryDays(catalog: seq<CatalogAction>, days: seq<DaySnapshot>, c: Category): (r: nat)
    ensures r <= |days|
    decreases |days|
  {
    if days == [] then 0
    else
      CategoryDays(catalog, days[..|days| - 1], c)
      + (if c in DayCategories(catalog, days[|days| - 1].actions) then 1 else 0)
  }

  /** A category counts on a day exactly when some catalog action of that
      category is flagged true that day. */
  lemma DayCategoriesSpec(catalog: seq<CatalogAction>, actions: map<string, bool>, c: Category)
    ensures c in DayCategories(catalog, actions) <==>
      exists k :: k in actions && actions[k] && FindByKey(catalog, k).Some? && FindByKey(catalog, k).value.category == c
  {
  }

  /** The inner `Object.keys(actions).forEach`: the set of categories of the
      actions flagged true. */
  method CategoriesOfDay(catalog: seq<CatalogAction>, actions: map<string, bool>) returns (found: set<Category>)
    ensures found == DayCategories(catalog, actions)
  {
    found := {};
    var rest := actions.Keys;
    while rest != {}
      invariant rest <= actions.Keys
      invariant found == CategoriesOfKeys(catalog, actions, actions.Keys - rest)
      decreases |rest|
    {
      var k :| k in rest;
      CategoriesOfOneMore(catalog, actions, actions.Keys - rest, k);
      if actions[k] {
        var action := FindByKey(catalog, k);
        if action.Some? {
          found := found + {action.value.category};
        }
      }
      assert actions.Keys - (rest - {k}) == (actions.Keys - rest) + {k};
      rest := rest - {k};
    }
    assert actions.Keys - rest == actions.Keys;
  }

  /** One more key adds at most its own category. */
  lemma CategoriesOfOneMore(catalog: seq<CatalogAction>, actions: map<string, bool>, seen: set<string>, k: string)
    requires k in actions
    ensures CategoriesOfKeys(catalog, actions, seen + {k}) ==
      CategoriesOfKeys(catalog, actions, seen)
      + if actions[k] && FindByKey(catalog, k).Some? then {FindByKey(catalog, k).value.category} else {}
  {
  }

  /** `countActionDaysByCategory(days)`: for each category, the number of
      days on which it was practised. */
  method CountActionDaysByCategory(catalog: seq<CatalogAction>, days: seq<DaySnapshot>)
    returns (totals: map<Category, int>)
    ensures forall c: Category :: c in totals && totals[c] == CategoryDays(catalog, days, c)
  {
    totals := map[Training := 0, Movement := 0, Study := 0, Reading := 0];
    var i := 0;
    forall c: Category ensures c in totals && totals[c] == CategoryDays(catalog, days[..0], c) {
      assert days[..0] == [];
      match c
      case Training =>
      case Movement =>
      case Study =>
      case Reading =>
    }
    while i < |days|
      invariant 0 <= i <= |days|
      invariant forall c: Category :: c in totals && totals[c] == CategoryDays(catalog, days[..i], c)
    {
      var dayHasCategory := CategoriesOfDay(catalog, days[i].actions);
      assert days[..i + 1][..i] == days[..i];
      totals := map c: Category | c in totals :: if c in dayHasCategory then totals[c] + 1 else totals[c];
      i := i + 1;
    }
    assert days[..i] == days;
  }

  /** `scoreToLevel(score)`. */
  datatype StatLevel = StatLevel(level: int, progress: int, pct: int)

  /** A negative score counts as 0; every 10 points make a level, the rest
      is the progress towards the next one, shown as a percentage. */
  function ScoreToLevel(score: int): (r: StatLevel)
    ensures r.level >= 1 && 0 <= r.progress < PointsPerLevel
    ensures (r.level - 1) * PointsPerLevel + r.progress == if score < 0 then 0 else score
    ensures r.pct == r.progress * 10 && 0 <= r.pct <= 100
  {
    var safe := if score < 0 then 0 else score;
    var progress := safe % PointsPerLevel;
    StatLevel(safe / PointsPerLevel + 1, progress, if progress * 10 < 100 then progress * 10 else 100)
  }

  /** Raising a score never lowers its level. */
  lemma ScoreToLevelMonotone(a: int, b: int)
    requires a <= b
    ensures ScoreToLevel(a).level <= ScoreToLevel(b).level
  {
    var sa, sb := if a < 0 then 0 else a, if b < 0 then 0 else b;
    assert sa <= sb;
  }

  /** `Math.max(0, Math.round((lifeForLevel(level) - 100) / 10))`, with
      `Math.round` rounding halves up. */
  function LifeBonus(level: int): (r: int)
    ensures r >= 0
    ensures r * 10 - 5 <= LifeForLevel(level) - 100 < r * 10 + 5
  {
    LifeForLevelBounds(level, level);
    var x := (LifeForLevel(level) - 100 + 5) / 10;
    if x < 0 then 0 else x
  }

  /** The five scores of the stats screen. */
  datatype Scores = Scores(strength: int, dexterity: int, constitution: int, intelligence: int, wisdom: int)

  /** The scores `render` computes from the counted days. */
  method StatScores(s: State, today: Day) returns (r: Scores)
    ensures r.strength >= 0 && r.dexterity >= 0 && r.constitution >= 0 && r.intelligence >= 0 && r.wisdom >= 0
    ensures var days := GetDays(s, today);
      && r.strength == 2 * CountGoalDone(days, "exerciseMinutes") + 2 * CategoryDays(Actions, days, Training)
      && r.dexterity == CountGoalDone(days, "exerciseMinutes") + CountGoalDone(days, "steps") + 2 * CategoryDays(Actions, days, Movement)
      && r.constitution == CountGoalDone(days, "steps") + CountGoalDone(days, "waterLiters")
                           + 2 * CategoryDays(Actions, days, Movement) + LifeBonus(s.progress.level)
      && r.intelligence == 2 * CountGoalDone(days, "studyMinutes") + 2 * CategoryDays(Actions, days, Study)
      && r.wisdom == 2 * CountGoalDone(days, "readMinutes") + 2 * CategoryDays(Actions, days, Reading)
  {
    var days := GetDays(s, today);
    var exercise := CountGoalDone(days, "exerciseMinutes");
    var steps := CountGoalDone(days, "steps");
    var water := CountGoalDone(days, "waterLiters");
    var study := CountGoalDone(days, "studyMinutes");
    var read := CountGoalDone(days, "readMinutes");
    var actionDays := CountActionDaysByCategory(Actions, days);
    var lifeBonus := LifeBonus(s.progress.level);
    r := Scores(exercise * 2 + actionDays[Training] * 2,
                exercise + steps + actionDays[Movement] * 2,
                steps + water + actionDays[Movement] * 2 + lifeBonus,
                study * 2 + actionDays[Study] * 2,
                read * 2 + actionDays[Reading] * 2);
  }
}
