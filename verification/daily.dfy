/** Normalisation of today's record and the action-flag helpers
    (src/core/daily.js). The clock is the `today` parameter. */
module DailyRecord {
  import opened Base
  import opened Model

  /** The record `ensureDaily` creates for a new day. */
  function FreshDaily(today: Day): Daily {
    Daily(Some(today), map[], map[], map[], JBool(false))
  }

  /** Some action flag holds a value that is not a boolean. */
  predicate HasInvalidAction(d: Daily) {
    exists k :: k in d.actions && !d.actions[k].JBool?
  }

  /** A record dated today whose action flags and `skipUsed` are all booleans. */
  predicate WellFormed(d: Daily, today: Day) {
    d.date == Some(today) && !HasInvalidAction(d) && d.skipUsed.JBool?
  }

  /** `ensureDaily(dailyState)`: re-dates the record to today or repairs it. */
  function EnsureDaily(d: Daily, today: Day): (r: Daily)
    ensures r.date == Some(today)
    ensures d.date != Some(today) ==> r == FreshDaily(today) && WellFormed(r, today)
    ensures WellFormed(d, today) ==> r == d
    ensures d.date == Some(today) && HasInvalidAction(d) ==>
      r == d.(actions := map[], bonusCategories := map[])
    ensures d.date == Some(today) && !HasInvalidAction(d) && !d.skipUsed.JBool? ==>
      r == d.(skipUsed := JBool(false)) && WellFormed(r, today)
  {
    if d.date != Some(today) then FreshDaily(today)
    else if HasInvalidAction(d) then d.(actions := map[], bonusCategories := map[])
    else if !d.skipUsed.JBool? then d.(skipUsed := JBool(false))
    else d
  }

  /** Normalising is idempotent except when the record has both a corrupt
      action flag and a corrupt `skipUsed`: the first pass clears the actions
      and returns before repairing `skipUsed`. Two passes always give a
      well-formed record. */
  lemma EnsureDailyIdempotence(d: Daily, today: Day)
    ensures var once := EnsureDaily(d, today);
      WellFormed(EnsureDaily(once, today), today)
      && EnsureDaily(EnsureDaily(once, today), today) == EnsureDaily(once, today)
    ensures !(d.date == Some(today) && HasInvalidAction(d) && !d.skipUsed.JBool?) ==>
      EnsureDaily(EnsureDaily(d, today), today) == EnsureDaily(d, today)
    ensures d.date == Some(today) && HasInvalidAction(d) && !d.skipUsed.JBool? ==>
      EnsureDaily(EnsureDaily(d, today), today) != EnsureDaily(d, today)
  {
  }

  /** A concrete record on which normalising twice differs from normalising once. */
  lemma EnsureDailyNotIdempotent(today: Day)
    ensures var d := Daily(Some(today), map["walk" := JOther(true)], map[], map[], JOther(true));
      EnsureDaily(d, today).skipUsed == JOther(true)
      && EnsureDaily(EnsureDaily(d, today), today).skipUsed == JBool(false)
  {
    var d := Daily(Some(today), map["walk" := JOther(true)], map[], map[], JOther(true));
    assert HasInvalidAction(d) by {
      assert "walk" in d.actions && !d.actions["walk"].JBool?;
    }
  }

  /** `hasDoneAction(dailyState, actionKey)`: the action's flag is truthy. */
  predicate HasDoneAction(d: Daily, key: string) {
    key in d.actions && Truthy(d.actions[key])
  }

  /** `markActionDone(dailyState, actionKey)`. */
  function MarkActionDone(d: Daily, key: string): (r: Daily)
    ensures HasDoneAction(r, key) && r.actions[key] == JBool(true)
    ensures r.actions.Keys == d.actions.Keys + {key}
    ensures forall k :: k in d.actions && k != key ==> r.actions[k] == d.actions[k]
    ensures forall k :: k != key ==> (HasDoneAction(r, k) <==> HasDoneAction(d, k))
    ensures r == d.(actions := r.actions)
  {
    d.(actions := d.actions[key := JBool(true)])
  }
}
