/** The weekly training lists edited by the `TRAINING_*` cases of `dispatch`
    (src/state/store.js:446-536): a map from a day name to an ordered list of
    items, with add, remove, update, done-count and drag-and-drop reorder. */
module Training {
  import opened Base
  import opened Model

  type Week = map<string, seq<TrainingItem>>

  /** `Array.isArray(week[day]) ? week[day] : []`. */
  function DayList(week: Week, day: string): seq<TrainingItem> {
    if day in week then week[day] else []
  }

  /** `Number.isFinite(done) && done >= 0 ? Math.floor(done) : 0`, where `None`
      is a payload that is not a finite number. */
  function SafeDone(done: Option<int>): (r: int)
    ensures r >= 0
    ensures done.Some? && done.value >= 0 ==> r == done.value
  {
    if done.Some? && done.value >= 0 then done.value else 0
  }

  /** `{ ...week, [day]: [item, ...currentDay] }`: the new item goes first and
      every other day is untouched. */
  function AddItem(week: Week, day: string, item: TrainingItem): (r: Week)
    ensures DayList(r, day) == [item] + DayList(week, day)
    ensures forall d :: d != day ==> DayList(r, d) == DayList(week, d)
  {
    week[day := [item] + DayList(week, day)]
  }

  /** `items.filter(t => t.id !== id)`. */
  function WithoutId(items: seq<TrainingItem>, id: string): (r: seq<TrainingItem>)
    ensures |r| <= |items|
    decreases |items|
  {
    if items == [] then []
    else if items[0].id == id then WithoutId(items[1..], id)
    else [items[0]] + WithoutId(items[1..], id)
  }

  /** Removing keeps exactly the items with another id. */
  lemma {:induction false} WithoutIdMembers(items: seq<TrainingItem>, id: string)
    ensures forall t :: t in WithoutId(items, id) <==> t in items && t.id != id
    decreases |items|
  {
    if items != [] {
      WithoutIdMembers(items[1..], id);
      assert items == [items[0]] + items[1..];
    }
  }

  /** Removing an id no item carries changes nothing. */
  lemma {:induction false} WithoutIdAbsent(items: seq<TrainingItem>, id: string)
    requires forall i :: 0 <= i < |items| ==> items[i].id != id
    ensures WithoutId(items, id) == items
    decreases |items|
  {
    if items != [] {
      WithoutIdAbsent(items[1..], id);
    }
  }

  /** `items.map(t => t.id === id ? { ...t, name, reps, done } : t)`. */
  function Rewrite(items: seq<TrainingItem>, id: string, name: string, reps: string, done: int)
    : (r: seq<TrainingItem>)
    ensures |r| == |items|
    ensures forall i :: 0 <= i < |r| ==> r[i].id == items[i].id
  {
    seq(|items|, i requires 0 <= i < |items| =>
      if items[i].id == id then items[i].(name := name, reps := reps, done := done) else items[i])
  }

  /** `items.map(t => t.id === id ? { ...t, done } : t)`. */
  function SetDone(items: seq<TrainingItem>, id: string, done: int): (r: seq<TrainingItem>)
    ensures |r| == |items|
    ensures forall i :: 0 <= i < |r| ==> r[i].id == items[i].id
  {
    seq(|items|, i requires 0 <= i < |items| =>
      if items[i].id == id then items[i].(done := done) else items[i])
  }

  /** An edit reaches only the items with its id: the items with any other id
      are what they were, and repeating the edit changes nothing more. */
  lemma EditsSpec(items: seq<TrainingItem>, id: string, name: string, reps: string, done: int)
    ensures WithoutId(Rewrite(items, id, name, reps, done), id) == WithoutId(items, id)
    ensures WithoutId(SetDone(items, id, done), id) == WithoutId(items, id)
    ensures Rewrite(Rewrite(items, id, name, reps, done), id, name, reps, done) == Rewrite(items, id, name, reps, done)
    ensures SetDone(SetDone(items, id, done), id, done) == SetDone(items, id, done)
    ensures forall i :: 0 <= i < |items| && items[i].id == id ==>
      Rewrite(items, id, name, reps, done)[i] == TrainingItem(id, name, reps, done)
      && SetDone(items, id, done)[i] == items[i].(done := done)
  {
    OthersKept(items, Rewrite(items, id, name, reps, done), id);
    OthersKept(items, SetDone(items, id, done), id);
  }

  /** Two lists of equal length that agree on every item without id `id` and
      carry `id` at the same positions filter to the same list. */
  lemma {:induction false} OthersKept(a: seq<TrainingItem>, b: seq<TrainingItem>, id: string)
    requires |a| == |b|
    requires forall i :: 0 <= i < |a| ==> (a[i].id == id <==> b[i].id == id)
    requires forall i :: 0 <= i < |a| && a[i].id != id ==> b[i] == a[i]
    ensures WithoutId(b, id) == WithoutId(a, id)
    decreases |a|
  {
    if a != [] {
      OthersKept(a[1..], b[1..], id);
    }
  }

  /** `items.findIndex(t => t.id === id)`: the first position holding the id, or -1. */
  function IndexOfId(items: seq<TrainingItem>, id: string): (r: int)
    ensures -1 <= r < |items|
    ensures r == -1 <==> forall i :: 0 <= i < |items| ==> items[i].id != id
    ensures r >= 0 ==> items[r].id == id && forall j :: 0 <= j < r ==> items[j].id != id
    decreases |items|
  {
    if items == [] then -1
    else if items[0].id == id then 0
    else
      var k := IndexOfId(items[1..], id);
      if k == -1 then -1 else k + 1
  }

  // ---------------------------------------------------------------- reorder

  /** `list.splice(i, 1)` on a copy: the list without position `i`. */
  function Remove(s: seq<TrainingItem>, i: nat): seq<TrainingItem>
    requires i < |s|
  {
    s[..i] + s[i + 1..]
  }

  /** `list.splice(i, 0, x)` on a copy: `x` inserted before position `i`. */
  function Insert(s: seq<TrainingItem>, i: nat, x: TrainingItem): seq<TrainingItem>
    requires i <= |s|
  {
    s[..i] + [x] + s[i..]
  }

  /** Where `TRAINING_REORDER` re-inserts the moved item into the `len` items
      left after removing it: before the target, or after it with `after`,
      clamped into the list. */
  function InsertIndex(fromIndex: int, toIndex: int, after: bool, len: nat): (r: nat)
    ensures r <= len
  {
    var index := toIndex - (if fromIndex < toIndex then 1 else 0) + (if after then 1 else 0);
    if index < 0 then 0 else if index > len then len else index
  }

  /** The list `TRAINING_REORDER` builds: the item at `fromIndex` taken out and
      pushed at the end when there is no target (`toIndex == -1`), otherwise
      put back at `InsertIndex`. */
  function Reordered(items: seq<TrainingItem>, fromIndex: nat, toIndex: int, after: bool): seq<TrainingItem>
    requires fromIndex < |items| && -1 <= toIndex < |items|
  {
    var rest := Remove(items, fromIndex);
    if toIndex == -1 then rest + [items[fromIndex]]
    else Insert(rest, InsertIndex(fromIndex, toIndex, after, |rest|), items[fromIndex])
  }

  /** The position the moved item ends up at. */
  function Landing(items: seq<TrainingItem>, fromIndex: nat, toIndex: int, after: bool): nat
    requires fromIndex < |items| && -1 <= toIndex < |items|
  {
    if toIndex == -1 then |items| - 1 else InsertIndex(fromIndex, toIndex, after, |items| - 1)
  }

  lemma RemoveSpec(s: seq<TrainingItem>, i: nat)
    requires i < |s|
    ensures multiset(Remove(s, i)) + multiset{s[i]} == multiset(s)
    ensures Insert(Remove(s, i), i, s[i]) == s
  {
    assert s == s[..i] + [s[i]] + s[i + 1..];
  }

  lemma InsertSpec(s: seq<TrainingItem>, i: nat, x: TrainingItem)
    requires i <= |s|
    ensures multiset(Insert(s, i, x)) == multiset(s) + multiset{x}
    ensures |Insert(s, i, x)| == |s| + 1 && Insert(s, i, x)[i] == x
    ensures Remove(Insert(s, i, x), i) == s
  {
    var r := Insert(s, i, x);
    assert s == s[..i] + s[i..];
    assert r[..i] == s[..i] && r[i + 1..] == s[i..];
  }

  /** A reorder is a permutation of the day's list: the moved item lands at
      `Landing`, and taking it out again leaves the other items in their
      original order. */
  lemma ReorderedIsPermutation(items: seq<TrainingItem>, fromIndex: nat, toIndex: int, after: bool)
    requires fromIndex < |items| && -1 <= toIndex < |items|
    ensures var r := Reordered(items, fromIndex, toIndex, after);
      var at := Landing(items, fromIndex, toIndex, after);
      && |r| == |items|
      && multiset(r) == multiset(items)
      && at < |r| && r[at] == items[fromIndex]
      && Remove(r, at) == Remove(items, fromIndex)
  {
    var rest := Remove(items, fromIndex);
    var x := items[fromIndex];
    var at := Landing(items, fromIndex, toIndex, after);
    if toIndex == -1 {
      assert rest[..|rest|] == rest && rest[|rest|..] == [];
    }
    assert Reordered(items, fromIndex, toIndex, after) == Insert(rest, at, x);
    RemoveSpec(items, fromIndex);
    InsertSpec(rest, at, x);
  }

  /** `nextDay.every((item, idx) => item.id === currentDay[idx]?.id)`. */
  predicate SameIds(next: seq<TrainingItem>, current: seq<TrainingItem>) {
    forall i :: 0 <= i < |next| ==> i < |current| && next[i].id == current[i].id
  }

  /** `a.splice(from, 1)` on an array: the items after `from` move one place
      left; the last slot keeps its old value. */
  method TakeOut(a: array<TrainingItem>, from: nat)
    requires from < a.Length
    modifies a
    ensures a[..a.Length - 1] == Remove(old(a[..]), from)
  {
    ghost var items := a[..];
    var i := from;
    while i < a.Length - 1
      invariant from <= i <= a.Length - 1
      invariant forall k :: 0 <= k < from ==> a[k] == items[k]
      invariant forall k :: from <= k < i ==> a[k] == items[k + 1]
      invariant forall k :: i < k < a.Length ==> a[k] == items[k]
    {
      a[i] := a[i + 1];
      i := i + 1;
    }
    assert forall k :: 0 <= k < a.Length - 1 ==> a[k] == Remove(items, from)[k];
  }

  /** `a.splice(at, 0, x)` on the first `len` slots of an array one slot
      longer: the items from `at` on move one place right and `x` fills the gap. */
  method PutBack(a: array<TrainingItem>, len: nat, at: nat, x: TrainingItem)
    requires len + 1 == a.Length && at <= len
    modifies a
    ensures a[..] == Insert(old(a[..len]), at, x)
  {
    ghost var rest := a[..len];
    var j := len;
    while j > at
      invariant at <= j <= len
      invariant forall k :: 0 <= k < j ==> a[k] == rest[k]
      invariant forall k :: j < k <= len ==> a[k] == rest[k - 1]
    {
      a[j] := a[j - 1];
      j := j - 1;
    }
    a[at] := x;
    assert forall k :: 0 <= k < a.Length ==> a[k] == Insert(rest, at, x)[k];
  }

  /** The splices of `TRAINING_REORDER` on a copied array: the moved item is
      taken out, then pushed at the end or put back at its new place. */
  method ReorderDay(items: seq<TrainingItem>, fromIndex: nat, toIndex: int, after: bool)
    returns (nextDay: seq<TrainingItem>)
    requires fromIndex < |items| && -1 <= toIndex < |items|
    ensures nextDay == Reordered(items, fromIndex, toIndex, after)
  {
    var a := new TrainingItem[|items|](i requires 0 <= i < |items| => items[i]);
    assert a[..] == items;
    var moved := a[fromIndex];
    TakeOut(a, fromIndex);
    var len := a.Length - 1;
    if toIndex == -1 {
      a[len] := moved;
      assert a[..] == a[..len] + [moved];
    } else {
      PutBack(a, len, InsertIndex(fromIndex, toIndex, after, len), moved);
    }
    nextDay := a[..];
  }

  /** The week `TRAINING_REORDER` installs, or `None` when it returns early:
      no day or source id, fewer than two items, an unknown source id, or an
      order whose ids did not change. */
  function ReorderWeek(week: Week, day: string, fromId: string, toId: string, after: bool): Option<Week> {
    var current := DayList(week, day);
    if day == "" || fromId == "" || |current| < 2 then None
    else
      var fromIndex := IndexOfId(current, fromId);
      if fromIndex == -1 then None
      else
        var toIndex := if toId != "" then IndexOfId(current, toId) else -1;
        var next := Reordered(current, fromIndex, toIndex, after);
        if SameIds(next, current) then None else Some(week[day := next])
  }

  /** `TRAINING_REORDER` from the payload to the new week. */
  method ReorderTraining(week: Week, day: string, fromId: string, toId: string, after: bool)
    returns (r: Option<Week>)
    ensures r == ReorderWeek(week, day, fromId, toId, after)
  {
    var current := DayList(week, day);
    if day == "" || fromId == "" || |current| < 2 {
      return None;
    }
    var fromIndex := IndexOfId(current, fromId);
    if fromIndex == -1 {
      return None;
    }
    var toIndex := if toId != "" then IndexOfId(current, toId) else -1;
    var next := ReorderDay(current, fromIndex, toIndex, after);
    if SameIds(next, current) {
      return None;
    }
    r := Some(week[day := next]);
  }

  /** A reorder that installs a week changes only that day's list, into a
      permutation of it in a different order. */
  lemma ReorderWeekSpec(week: Week, day: string, fromId: string, toId: string, after: bool)
    ensures var r := ReorderWeek(week, day, fromId, toId, after);
      r.Some? ==>
        && multiset(DayList(r.value, day)) == multiset(DayList(week, day))
        && !SameIds(DayList(r.value, day), DayList(week, day))
        && (forall d :: d != day ==> DayList(r.value, d) == DayList(week, d))
  {
    var current := DayList(week, day);
    if day != "" && fromId != "" && |current| >= 2 {
      var fromIndex := IndexOfId(current, fromId);
      if fromIndex != -1 {
        var toIndex := if toId != "" then IndexOfId(current, toId) else -1;
        ReorderedIsPermutation(current, fromIndex, toIndex, after);
      }
    }
  }

  /** Dropping an item onto itself, before it, leaves the list as it was, so
      nothing is installed. */
  lemma ReorderOntoItself(week: Week, day: string, id: string)
    ensures ReorderWeek(week, day, id, id, false).None?
  {
    var current := DayList(week, day);
    if day != "" && id != "" && |current| >= 2 {
      var fromIndex := IndexOfId(current, id);
      if fromIndex != -1 {
        RemoveSpec(current, fromIndex);
        assert InsertIndex(fromIndex, fromIndex, false, |current| - 1) == fromIndex;
        assert Reordered(current, fromIndex, fromIndex, false) == current;
      }
    }
  }
}
