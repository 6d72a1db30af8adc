/** Helpers for the to-do list (src/core/tasks.js): add a task, mark tasks done,
    and keep the pending ones. Each returns a new list. The new task's id and
    the ISO timestamps are parameters. */
module Tasks {
  import opened Base

  datatype Task = Task(id: string, text: string, done: bool, createdAt: string, doneAt: Option<string>)

  /** `addTask(tasks, text)`: a text that is blank once trimmed leaves the
      list as it was; otherwise exactly one new, not-done task with the
      trimmed text goes in front of the old list. */
  function AddTask(tasks: seq<Task>, text: string, id: string, now: string): (r: seq<Task>)
    ensures AllSpace(text) ==> r == tasks
    ensures !AllSpace(text) ==>
      && |r| == |tasks| + 1 && r[1..] == tasks
      && r[0].id == id && r[0].text == Trim(text) && r[0].text != [] && !r[0].done
      && r[0].createdAt == now && r[0].doneAt.None?
  {
    var trimmed := Trim(text);
    if trimmed == [] then tasks else [Task(id, trimmed, false, now, None)] + tasks
  }

  /** One element of `markTaskDone`'s `map`. */
  function MarkOne(t: Task, id: string, now: string): Task {
    if t.id == id then t.(done := true, doneAt := Some(now)) else t
  }

  /** `markTaskDone(tasks, id)`: the same list in the same order, where every
      task with that id is done and stamped, and every other task is as it was. */
  function MarkTaskDone(tasks: seq<Task>, id: string, now: string): (r: seq<Task>)
    ensures |r| == |tasks|
    ensures forall i :: 0 <= i < |tasks| && tasks[i].id != id ==> r[i] == tasks[i]
    ensures forall i :: 0 <= i < |tasks| && tasks[i].id == id ==>
      r[i] == tasks[i].(done := true, doneAt := Some(now))
    decreases |tasks|
  {
    if tasks == [] then [] else [MarkOne(tasks[0], id, now)] + MarkTaskDone(tasks[1..], id, now)
  }

  /** `pendingTasks(tasks)`: every task not yet done. */
  function PendingTasks(tasks: seq<Task>): (r: seq<Task>)
    ensures |r| <= |tasks|
    ensures forall t :: t in r <==> t in tasks && !t.done
    decreases |tasks|
  {
    if tasks == [] then []
    else if tasks[0].done then PendingTasks(tasks[1..])
    else [tasks[0]] + PendingTasks(tasks[1..])
  }

  /** Filtering distributes over concatenation, so the pending tasks keep
      their original order. */
  lemma {:induction false} PendingAppend(a: seq<Task>, b: seq<Task>)
    ensures PendingTasks(a + b) == PendingTasks(a) + PendingTasks(b)
    decreases |a|
  {
    if a == [] {
      assert a + b == b;
    } else {
      assert (a + b)[0] == a[0] && (a + b)[1..] == a[1..] + b;
      PendingAppend(a[1..], b);
    }
  }

  /** After marking an id done, no pending task carries that id. */
  lemma PendingAfterMark(tasks: seq<Task>, id: string, now: string)
    ensures var p := PendingTasks(MarkTaskDone(tasks, id, now));
      forall i :: 0 <= i < |p| ==> p[i].id != id
  {
    var m := MarkTaskDone(tasks, id, now);
    var p := PendingTasks(m);
    forall i | 0 <= i < |p| ensures p[i].id != id {
      assert p[i] in m;
      var j :| 0 <= j < |m| && m[j] == p[i];
      assert !m[j].done;
    }
  }

  /** After marking an id done, the pending list is exactly the tasks that
      were pending and carry another id, in their original order. */
  lemma {:induction false} PendingMarkOthers(tasks: seq<Task>, id: string, now: string)
    ensures PendingTasks(MarkTaskDone(tasks, id, now)) == PendingOthers(tasks, id)
    decreases |tasks|
  {
    if tasks != [] {
      PendingMarkOthers(tasks[1..], id, now);
      assert MarkTaskDone(tasks, id, now)[1..] == MarkTaskDone(tasks[1..], id, now);
    }
  }

  /** The tasks not done whose id differs from `id`. */
  function PendingOthers(tasks: seq<Task>, id: string): (r: seq<Task>)
    ensures |r| <= |tasks|
    ensures forall t :: t in r <==> t in tasks && !t.done && t.id != id
    decreases |tasks|
  {
    if tasks == [] then []
    else if tasks[0].done || tasks[0].id == id then PendingOthers(tasks[1..], id)
    else [tasks[0]] + PendingOthers(tasks[1..], id)
  }

  /** A new task shows up first among the pending ones. */
  lemma PendingAfterAdd(tasks: seq<Task>, text: string, id: string, now: string)
    ensures var r := AddTask(tasks, text, id, now);
      PendingTasks(r) == if AllSpace(text) then PendingTasks(tasks) else [r[0]] + PendingTasks(tasks)
  {
    if !AllSpace(text) {
      var r := AddTask(tasks, text, id, now);
      assert r == [r[0]] + tasks;
      PendingAppend([r[0]], tasks);
    }
  }
}
